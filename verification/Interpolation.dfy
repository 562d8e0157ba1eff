/**
 Template interpolation: `{{ steps.X.output.path }}` becomes the JSON text of the value at
 the path, between data delimiters. The regular expressions for path segments and for
 placeholders are parameters.
 */
module Interpolation {
  import opened Prelude
  import opened Json
  import opened Text
  import opened Decimal

  const MAX_VALUE_LENGTH := 10000
  const DOT := "."

  /** A path segment: a key and perhaps an index into the list found there. */
  datatype Segment = Segment(key: string, index: Option<nat>)

  /** Reading one segment; None for a text that is not one. */
  type SegmentReader = string -> Option<Segment>

  /** Why a path leads nowhere, and the segments walked before. */
  datatype PathError =
    | InvalidSegment(segment: string)
    | NotADict(visited: seq<string>, key: string)
    | KeyMissing(visited: seq<string>, key: string)
    | NotAList(visited: seq<string>, index: nat)
    | OutOfRange(visited: seq<string>, index: nat, length: nat)

  datatype Walk = Reached(value: Json) | Lost(error: PathError)

  /** How a walked segment shows in messages. */
  function Shown(s: Segment): string {
    match s.index
    case None => s.key
    case Some(i) => s.key + "[" + Dec(i) + "]"
  }

  function Enter(data: Json, text: string, visited: seq<string>, read: SegmentReader): Walk {
    match read(text)
    case None => Lost(InvalidSegment(text))
    case Some(s) =>
      if !data.Obj? then Lost(NotADict(visited, s.key))
      else if s.key !in data.fields then Lost(KeyMissing(visited, s.key))
      else
        var inner := data.fields[s.key];
        match s.index
        case None => Reached(inner)
        case Some(i) =>
          if !inner.Arr? then Lost(NotAList(visited + [s.key], i))
          else if i >= |inner.items| then Lost(OutOfRange(visited + [s.key], i, |inner.items|))
          else Reached(inner.items[i])
  }

  function ShownText(text: string, read: SegmentReader): string {
    match read(text) case None => text case Some(s) => Shown(s)
  }

  function ShownAll(texts: seq<string>, read: SegmentReader): (r: seq<string>)
    ensures |r| == |texts|
  {
    if texts == [] then [] else [ShownText(texts[0], read)] + ShownAll(texts[1..], read)
  }

  function WalkFrom(data: Json, visited: seq<string>, texts: seq<string>, read: SegmentReader): Walk
    decreases |texts|
  {
    if texts == [] then Reached(data)
    else
      match Enter(data, texts[0], visited, read)
      case Lost(e) => Lost(e)
      case Reached(inner) => WalkFrom(inner, visited + [ShownText(texts[0], read)], texts[1..], read)
  }

  /** Where the path leads. */
  function Resolve(data: Json, path: string, read: SegmentReader): Walk {
    WalkFrom(data, [], Split(path, DOT), read)
  }

  method ResolvePath(data: Json, path: string, read: SegmentReader) returns (r: Walk)
    ensures r == Resolve(data, path, read)
  {
    var current := data;
    var segments := Split(path, DOT);
    var visited: seq<string> := [];
    for n := 0 to |segments|
      invariant Resolve(data, path, read) == WalkFrom(current, visited, segments[n..], read)
    {
      var segment := segments[n];
      assert segments[n..][1..] == segments[n + 1..];
      match read(segment) {
        case None => return Lost(InvalidSegment(segment));
        case Some(m) =>
          if !current.Obj? {
            return Lost(NotADict(visited, m.key));
          }
          if m.key !in current.fields {
            return Lost(KeyMissing(visited, m.key));
          }
          current := current.fields[m.key];
          var before := visited;
          visited := visited + [m.key];
          if m.index.Some? {
            var i := m.index.value;
            if !current.Arr? {
              return Lost(NotAList(visited, i));
            }
            if i >= |current.items| {
              return Lost(OutOfRange(visited, i, |current.items|));
            }
            current := current.items[i];
            visited := visited[|visited| - 1 := m.key + "[" + Dec(i) + "]"];
          }
          assert visited == before + [ShownText(segment, read)];
      }
    }
    return Reached(current);
  }

  // ------------------------------------------------------------ joined paths

  /** The same failure, met behind a longer way. */
  function Behind(way: seq<string>, e: PathError): PathError {
    match e
    case InvalidSegment(s) => e
    case NotADict(v, k) => NotADict(way + v, k)
    case KeyMissing(v, k) => KeyMissing(way + v, k)
    case NotAList(v, i) => NotAList(way + v, i)
    case OutOfRange(v, i, n) => OutOfRange(way + v, i, n)
  }

  function BehindWalk(way: seq<string>, w: Walk): Walk {
    match w case Reached(v) => w case Lost(e) => Lost(Behind(way, e))
  }

  lemma EnterBehind(data: Json, text: string, way: seq<string>, visited: seq<string>, read: SegmentReader)
    ensures Enter(data, text, way + visited, read) == BehindWalk(way, Enter(data, text, visited, read))
  {
    assert forall k: string :: (way + visited) + [k] == way + (visited + [k]);
  }

  /** The way behind shows only in the message. */
  lemma {:induction false} WalkBehind(
      data: Json, way: seq<string>, visited: seq<string>, texts: seq<string>, read: SegmentReader)
    ensures WalkFrom(data, way + visited, texts, read) == BehindWalk(way, WalkFrom(data, visited, texts, read))
    decreases |texts|
  {
    if texts != [] {
      EnterBehind(data, texts[0], way, visited, read);
      match Enter(data, texts[0], visited, read) {
        case Lost(_) =>
        case Reached(inner) =>
          var shown := [ShownText(texts[0], read)];
          assert (way + visited) + shown == way + (visited + shown);
          WalkBehind(inner, way, visited + shown, texts[1..], read);
      }
    }
  }

  lemma {:induction false} WalkInTwo(
      data: Json, visited: seq<string>, a: seq<string>, b: seq<string>, read: SegmentReader)
    ensures WalkFrom(data, visited, a + b, read) ==
      match WalkFrom(data, visited, a, read)
      case Lost(e) => Lost(e)
      case Reached(inner) => WalkFrom(inner, visited + ShownAll(a, read), b, read)
    decreases |a|
  {
    if a == [] {
      assert a + b == b && visited + ShownAll(a, read) == visited;
    } else {
      assert (a + b)[1..] == a[1..] + b;
      var shown := [ShownText(a[0], read)];
      assert (visited + shown) + ShownAll(a[1..], read) == visited + ShownAll(a, read);
      match Enter(data, a[0], visited, read) {
        case Lost(_) =>
        case Reached(inner) => WalkInTwo(inner, visited + shown, a[1..], b, read);
      }
    }
  }

  /** Resolving p.q is resolving q inside what p leads to: it fails exactly when either part
      does, with p's own failure, or q's with the way to it prefixed. */
  lemma JoinedPath(data: Json, p: string, q: string, read: SegmentReader)
    ensures Resolve(data, p + DOT + q, read) ==
      match Resolve(data, p, read)
      case Lost(e) => Lost(e)
      case Reached(inner) => BehindWalk(ShownAll(Split(p, DOT), read), Resolve(inner, q, read))
  {
    var a, b := Split(p, DOT), Split(q, DOT);
    var way := ShownAll(a, read);
    SplitOfJoined(p, '.', q);
    WalkInTwo(data, [], a, b, read);
    match WalkFrom(data, [], a, read) {
      case Lost(_) =>
      case Reached(inner) =>
        assert [] + way == way + [];
        WalkBehind(inner, way, [], b, read);
    }
  }

  // ------------------------------------------------------------ what a path reaches

  /** An object with a place for one value: under a key, or in a list there behind `before`. */
  datatype Frame = Frame(key: string, others: map<string, Json>, before: Option<seq<Json>>, after: seq<Json>)

  /** The object with the value in its place. */
  function Plug(f: Frame, v: Json): Json {
    Obj(f.others[f.key := if f.before.None? then v else Arr(f.before.value + [v] + f.after)])
  }

  function PlugAll(frames: seq<Frame>, v: Json): Json {
    if frames == [] then v else Plug(frames[0], PlugAll(frames[1..], v))
  }

  /** The segment names the frame's place: its key, and the number of items before it. */
  predicate Names(text: string, f: Frame, read: SegmentReader) {
    read(text) == Some(Segment(f.key, if f.before.None? then None else Some(|f.before.value|)))
  }

  ghost predicate NamesAll(texts: seq<string>, frames: seq<Frame>, read: SegmentReader) {
    |texts| == |frames| && forall i :: 0 <= i < |texts| ==> Names(texts[i], frames[i], read)
  }

  lemma EnterPlugged(text: string, f: Frame, v: Json, visited: seq<string>, read: SegmentReader)
    requires Names(text, f, read)
    ensures Enter(Plug(f, v), text, visited, read) == Reached(v)
  {
  }

  lemma Unplug(data: Json, text: string, visited: seq<string>, read: SegmentReader) returns (f: Frame)
    requires Enter(data, text, visited, read).Reached?
    ensures Names(text, f, read) && data == Plug(f, Enter(data, text, visited, read).value)
  {
    var s := read(text).value;
    var inner := data.fields[s.key];
    match s.index {
      case None =>
        f := Frame(s.key, data.fields, None, []);
      case Some(i) =>
        f := Frame(s.key, data.fields, Some(inner.items[..i]), inner.items[i + 1..]);
        assert inner.items == inner.items[..i] + [inner.items[i]] + inner.items[i + 1..];
    }
    assert data.fields[s.key := inner] == data.fields;
  }

  lemma {:induction false} WalkPlugged(
      texts: seq<string>, frames: seq<Frame>, v: Json, visited: seq<string>, read: SegmentReader)
    requires NamesAll(texts, frames, read)
    ensures WalkFrom(PlugAll(frames, v), visited, texts, read) == Reached(v)
    decreases |texts|
  {
    if texts != [] {
      EnterPlugged(texts[0], frames[0], PlugAll(frames[1..], v), visited, read);
      WalkPlugged(texts[1..], frames[1..], v, visited + [ShownText(texts[0], read)], read);
    }
  }

  lemma {:induction false} UnplugAll(data: Json, texts: seq<string>, visited: seq<string>, read: SegmentReader)
    returns (frames: seq<Frame>)
    requires WalkFrom(data, visited, texts, read).Reached?
    ensures NamesAll(texts, frames, read)
    ensures data == PlugAll(frames, WalkFrom(data, visited, texts, read).value)
    decreases |texts|
  {
    frames := [];
    if texts != [] {
      var f := Unplug(data, texts[0], visited, read);
      var inner := Enter(data, texts[0], visited, read).value;
      var rest := UnplugAll(inner, texts[1..], visited + [ShownText(texts[0], read)], read);
      frames := [f] + rest;
      assert frames[1..] == rest;
    }
  }

  /** A path reaches a value if and only if the data is that value put, from the inside out, into
      the places that the path's segments name. */
  lemma ReachedIff(data: Json, path: string, v: Json, read: SegmentReader)
    ensures Resolve(data, path, read) == Reached(v) <==>
      exists frames :: NamesAll(Split(path, DOT), frames, read) && data == PlugAll(frames, v)
  {
    var texts := Split(path, DOT);
    if Resolve(data, path, read) == Reached(v) {
      var frames := UnplugAll(data, texts, [], read);
      assert NamesAll(texts, frames, read) && data == PlugAll(frames, v);
    }
    if frames :| NamesAll(texts, frames, read) && data == PlugAll(frames, v) {
      WalkPlugged(texts, frames, v, [], read);
    }
  }

  // ------------------------------------------------------------ inserting values

  const OPEN := "<data>"
  const CLOSE := "</data>"

  function Sanitize(value: string): (r: string)
    ensures |r| <= MAX_VALUE_LENGTH + 3
    ensures |value| <= MAX_VALUE_LENGTH ==> r == value
    ensures |value| > MAX_VALUE_LENGTH ==> |r| == 10003 && r[..10000] == value[..10000] && r[10000..] == "..."
  {
    if |value| > MAX_VALUE_LENGTH then value[..MAX_VALUE_LENGTH] + "..." else value
  }

  function Format(value: Json, codec: Codec): (r: string)
    ensures |r| <= 10016
    ensures OPEN <= r && |r| >= 13 && r[|r| - 7..] == CLOSE
  {
    if value.Null? then "<data>null</data>" else OPEN + Sanitize(codec.dumps(value)) + CLOSE
  }

  /** A value that is not cut can be read back from between the delimiters. */
  lemma FormatRoundTrip(value: Json, codec: Codec)
    requires Faithful(codec) && codec.dumps(Null) == "null"
    requires |codec.dumps(value)| <= MAX_VALUE_LENGTH
    ensures var r := Format(value, codec); codec.loads(r[6..|r| - 7]) == Some(value)
  {
    var r := Format(value, codec);
    assert r == OPEN + codec.dumps(value) + CLOSE;
    assert r[6..|r| - 7] == codec.dumps(value);
  }

  /** What stands between the delimiters. */
  function Inserted(value: Json, codec: Codec): string {
    if value.Null? then "null" else Sanitize(codec.dumps(value))
  }

  /** The closing delimiter stands at the end of an inserted value and nowhere else if and only
      if the dumped and possibly cut text does not hold one. Dumping does not rule that out. */
  lemma ClosesOnceIff(value: Json, codec: Codec)
    ensures var r := Format(value, codec);
      (forall i :: At(CLOSE, r, i) ==> i == |r| - 7) <==> !Occurs(CLOSE, Inserted(value, codec))
  {
    var inner := Inserted(value, codec);
    var r := OPEN + inner + CLOSE;
    assert Format(value, codec) == r;
    if Occurs(CLOSE, inner) {
      ClosesInside(inner, Place(CLOSE, inner));
    } else {
      forall i: int | At(CLOSE, r, i)
        ensures i == |r| - 7
      {
        CloseIsBehind(inner, i);
      }
    }
  }

  /** A value that shows it: json.dumps puts quotes around the delimiter and does not escape it. */
  lemma DelimiterCanBeInserted(codec: Codec)
    requires codec.dumps(Str(CLOSE)) == "\"" + CLOSE + "\""
    ensures var r := Format(Str(CLOSE), codec); exists i :: At(CLOSE, r, i) && i != |r| - 7
  {
    OccursBetween("\"", CLOSE, "\"");
    ClosesOnceIff(Str(CLOSE), codec);
  }

  lemma ClosesInside(inner: string, i: nat)
    requires At(CLOSE, inner, i)
    ensures At(CLOSE, OPEN + inner + CLOSE, 6 + i)
  {
    var r := OPEN + inner + CLOSE;
    assert r[6 + i..13 + i] == inner[i..i + 7];
  }

  lemma CloseIsBehind(inner: string, i: nat)
    requires At(CLOSE, OPEN + inner + CLOSE, i)
    ensures i == 6 + |inner| || At(CLOSE, inner, i - 6)
  {
    var r := OPEN + inner + CLOSE;
    var first: nat, second: nat := 0, 1;
    AtElement(CLOSE, r, i, first);
    AtElement(CLOSE, r, i, second);
    assert r[0] == '<' && r[1] == 'd' && r[2] == 'a' && r[3] == 't' && r[4] == 'a' && r[5] == '>';
    assert i >= 6;
    var m := 6 + |inner|;
    assert r[m] == '<';
    if i + 7 <= m {
      assert r[i..i + 7] == inner[i - 6..i + 1];
    } else if i < m {
      var k: nat := m - i;
      AtElement(CLOSE, r, i, k);
    }
  }

  // ------------------------------------------------------------ expanding a template

  /** A placeholder that the pattern matches at a position: how long it is, and what it names. */
  datatype Hit = Hit(length: nat, step: string, path: string)

  /** Matching the placeholder pattern at a position of a text. */
  type Matcher = (string, nat) -> Option<Hit>

  /** A match is not empty and lies inside the text. */
  ghost predicate MatchesInside(matches: Matcher) {
    forall t: string, i: nat :: i <= |t| && matches(t, i).Some? ==> 0 < matches(t, i).value.length <= |t| - i
  }

  /** A piece of the template: a single character, or a placeholder. */
  datatype Piece = Literal(text: string) | Placeholder(text: string, step: string, path: string)

  /** The piece that starts at position i. */
  function PieceAt(template: string, i: nat, matches: Matcher): (p: Piece)
    requires MatchesInside(matches) && i < |template|
    ensures 0 < |p.text| <= |template| - i && p.text == template[i..i + |p.text|]
  {
    match matches(template, i)
    case None => Literal([template[i]])
    case Some(h) => Placeholder(template[i..i + h.length], h.step, h.path)
  }

  /** Scanning from left to right, past each placeholder. */
  ghost function Pieces(template: string, i: nat, matches: Matcher): seq<Piece>
    requires MatchesInside(matches) && i <= |template|
    decreases |template| - i
  {
    if i == |template| then []
    else
      var p := PieceAt(template, i, matches);
      [p] + Pieces(template, i + |p.text|, matches)
  }

  function Source(pieces: seq<Piece>): string {
    if pieces == [] then "" else pieces[0].text + Source(pieces[1..])
  }

  lemma NextPiece(template: string, i: nat, matches: Matcher, p: Piece)
    requires MatchesInside(matches) && i < |template| && p == PieceAt(template, i, matches)
    ensures Pieces(template, i, matches) == [p] + Pieces(template, i + |p.text|, matches)
  {
  }

  /** The pieces make up the template. */
  lemma {:induction false} PiecesPartition(template: string, i: nat, matches: Matcher)
    requires MatchesInside(matches) && i <= |template|
    ensures Source(Pieces(template, i, matches)) == template[i..]
    decreases |template| - i
  {
    if i < |template| {
      var p := PieceAt(template, i, matches);
      var rest := Pieces(template, i + |p.text|, matches);
      PiecesPartition(template, i + |p.text|, matches);
      SourceOfCons(template, i, p, rest);
      NextPiece(template, i, matches, p);
    }
  }

  lemma SourceOfCons(template: string, i: nat, p: Piece, rest: seq<Piece>)
    requires i + |p.text| <= |template| && p.text == template[i..i + |p.text|]
    requires Source(rest) == template[i + |p.text|..]
    ensures Source([p] + rest) == template[i..]
  {
    assert ([p] + rest)[1..] == rest;
    assert template[i..] == template[i..i + |p.text|] + template[i + |p.text|..];
  }

  /** Only the template is scanned: how the pattern matches any other text, such as a value
      that is inserted, makes no difference. */
  lemma {:induction false} OnlyTemplateScanned(template: string, i: nat, one: Matcher, other: Matcher)
    requires MatchesInside(one) && MatchesInside(other) && i <= |template|
    requires forall k: nat :: k < |template| ==> one(template, k) == other(template, k)
    ensures Pieces(template, i, one) == Pieces(template, i, other)
    decreases |template| - i
  {
    if i < |template| {
      var p := PieceAt(template, i, one);
      assert p == PieceAt(template, i, other);
      NextPiece(template, i, one, p);
      NextPiece(template, i, other, p);
      OnlyTemplateScanned(template, i + |p.text|, one, other);
    }
  }

  function Placeholders(pieces: seq<Piece>): nat {
    if pieces == [] then 0 else (if pieces[0].Placeholder? then 1 else 0) + Placeholders(pieces[1..])
  }

  /** The outputs of the steps that have a result; None for a step without output. */
  type Outputs = map<string, Option<map<string, Json>>>

  datatype Failure = MissingStep(step: string, path: string) | BadPath(error: PathError)

  datatype Rendered = Done(text: string) | Failed(failure: Failure)

  predicate IsSimple(path: string) {
    !Occurs(".", path) && !Occurs("[", path)
  }

  /** What a placeholder is replaced by. */
  type Replacer = (string, string) -> Rendered

  function Expand(step: string, path: string, outputs: Outputs, read: SegmentReader, codec: Codec): (r: Rendered)
    ensures r.Done? ==> |r.text| <= 10016
  {
    if step !in outputs || outputs[step].None? then Failed(MissingStep(step, path))
    else
      var output := outputs[step].value;
      if IsSimple(path) then Done(Format(if path in output then output[path] else Null, codec))
      else
        match Resolve(Obj(output), path, read)
        case Lost(e) => Failed(BadPath(e))
        case Reached(v) => Done(Format(v, codec))
  }

  /** The value a placeholder stands for: a missing single key reads as null. */
  ghost predicate StandsFor(output: map<string, Json>, path: string, v: Json, read: SegmentReader) {
    if '.' !in path && '[' !in path then (path in output && output[path] == v) || (path !in output && v == Null)
    else Resolve(Obj(output), path, read) == Reached(v)
  }

  /** A placeholder is replaced if and only if its step has an output and the path leads
      somewhere in it; and by a text from which the value can be read back, unless its dump is
      cut. Otherwise the step is reported missing, or the path's own failure. */
  lemma ExpandIff(step: string, path: string, outputs: Outputs, read: SegmentReader, codec: Codec)
    requires Faithful(codec) && codec.dumps(Null) == "null"
    ensures var r := Expand(step, path, outputs, read, codec);
      if step !in outputs || outputs[step].None? then r == Failed(MissingStep(step, path))
      else
        && (r.Failed? ==> ('.' in path || '[' in path) && r.failure.BadPath?
                          && Resolve(Obj(outputs[step].value), path, read) == Lost(r.failure.error))
        && (r.Done? <==> exists v :: StandsFor(outputs[step].value, path, v, read))
        && forall v :: StandsFor(outputs[step].value, path, v, read) && |codec.dumps(v)| <= MAX_VALUE_LENGTH ==>
             codec.loads(r.text[6..|r.text| - 7]) == Some(v)
  {
    var r := Expand(step, path, outputs, read, codec);
    OccursOne('.', path);
    OccursOne('[', path);
    if step in outputs && outputs[step].Some? {
      var output := outputs[step].value;
      if IsSimple(path) {
        assert StandsFor(output, path, if path in output then output[path] else Null, read);
      } else if r.Done? {
        assert StandsFor(output, path, Resolve(Obj(output), path, read).value, read);
      }
      forall v | StandsFor(output, path, v, read) && |codec.dumps(v)| <= MAX_VALUE_LENGTH
        ensures codec.loads(r.text[6..|r.text| - 7]) == Some(v)
      {
        FormatRoundTrip(v, codec);
      }
    }
  }

  function Render(p: Piece, replace: Replacer): Rendered {
    match p
    case Literal(text) => Done(text)
    case Placeholder(_, step, path) => replace(step, path)
  }

  /** The pieces in order, up to the first that fails. */
  function RenderAll(pieces: seq<Piece>, replace: Replacer): Rendered {
    if pieces == [] then Done("")
    else
      match RenderAll(pieces[..|pieces| - 1], replace)
      case Failed(f) => Failed(f)
      case Done(before) =>
        match Render(pieces[|pieces| - 1], replace)
        case Failed(f) => Failed(f)
        case Done(last) => Done(before + last)
  }

  lemma OneMorePiece(before: seq<Piece>, p: Piece, replace: Replacer)
    requires RenderAll(before, replace).Done?
    ensures RenderAll(before + [p], replace) ==
      match Render(p, replace)
      case Failed(f) => Failed(f)
      case Done(text) => Done(RenderAll(before, replace).text + text)
  {
    assert (before + [p])[..|before + [p]| - 1] == before;
  }

  lemma {:induction false} FailureStays(before: seq<Piece>, rest: seq<Piece>, replace: Replacer)
    requires RenderAll(before, replace).Failed?
    ensures RenderAll(before + rest, replace) == RenderAll(before, replace)
    decreases |rest|
  {
    if rest == [] {
      assert before + rest == before;
    } else {
      assert (before + rest)[..|before + rest| - 1] == before + rest[..|rest| - 1];
      FailureStays(before, rest[..|rest| - 1], replace);
    }
  }

  /** The template is scanned up to i; what stands before is cut into `before` and rendered. */
  ghost predicate Scanned(
      template: string, i: nat, matches: Matcher, replace: Replacer, before: seq<Piece>, text: string) {
    && MatchesInside(matches) && i <= |template|
    && Pieces(template, 0, matches) == before + Pieces(template, i, matches)
    && RenderAll(before, replace) == Done(text)
  }

  lemma ScanOn(
      template: string, i: nat, matches: Matcher, replace: Replacer, before: seq<Piece>, text: string, p: Piece)
    requires Scanned(template, i, matches, replace, before, text) && i < |template|
    requires p == PieceAt(template, i, matches)
    ensures match Render(p, replace)
      case Failed(f) => RenderAll(Pieces(template, 0, matches), replace) == Failed(f)
      case Done(more) => Scanned(template, i + |p.text|, matches, replace, before + [p], text + more)
  {
    NextPiece(template, i, matches, p);
    PieceRendered(Pieces(template, 0, matches), before, p, Pieces(template, i + |p.text|, matches), replace);
  }

  lemma ScanEnds(template: string, matches: Matcher, replace: Replacer, before: seq<Piece>, text: string)
    requires Scanned(template, |template|, matches, replace, before, text)
    ensures RenderAll(Pieces(template, 0, matches), replace) == Done(text)
  {
    assert before + [] == before;
  }

  lemma PieceRendered(all: seq<Piece>, before: seq<Piece>, p: Piece, rest: seq<Piece>, replace: Replacer)
    requires all == before + ([p] + rest) && RenderAll(before, replace).Done?
    ensures all == (before + [p]) + rest
    ensures match Render(p, replace)
      case Failed(f) => RenderAll(all, replace) == Failed(f)
      case Done(text) => RenderAll(before + [p], replace) == Done(RenderAll(before, replace).text + text)
  {
    assert all == (before + [p]) + rest;
    OneMorePiece(before, p, replace);
    if Render(p, replace).Failed? {
      FailureStays(before + [p], rest, replace);
    }
  }

  /** `pattern.sub(replacer, template)`: scan the template from left to right, copy what does
      not match, replace what does, and stop at the first failure. */
  method Substitute(template: string, matches: Matcher, replace: Replacer) returns (r: Rendered)
    requires MatchesInside(matches)
    ensures r == RenderAll(Pieces(template, 0, matches), replace)
  {
    var result := "";
    var i: nat := 0;
    ghost var before: seq<Piece> := [];
    while i < |template|
      invariant Scanned(template, i, matches, replace, before, result)
      decreases |template| - i
    {
      var p := PieceAt(template, i, matches);
      ScanOn(template, i, matches, replace, before, result, p);
      match Render(p, replace) {
        case Failed(f) => return Failed(f);
        case Done(text) => result := result + text;
      }
      i := i + |p.text|;
      before := before + [p];
    }
    ScanEnds(template, matches, replace, before, result);
    return Done(result);
  }

  /** Interpolation of a template, which grows by at most 10016 characters a placeholder. */
  method Interpolate(template: string, matches: Matcher, outputs: Outputs, read: SegmentReader, codec: Codec)
    returns (r: Rendered)
    requires MatchesInside(matches)
    ensures r == RenderAll(Pieces(template, 0, matches), (step, path) => Expand(step, path, outputs, read, codec))
    ensures r.Done? ==> |r.text| <= |template| + 10016 * Placeholders(Pieces(template, 0, matches))
  {
    var replacer := (step, path) => Expand(step, path, outputs, read, codec);
    r := Substitute(template, matches, replacer);
    InterpolatedLength(template, matches, replacer);
  }

  /** Inserted texts have at most 10016 characters. */
  ghost predicate Bounded(replace: Replacer) {
    forall step, path :: replace(step, path).Done? ==> |replace(step, path).text| <= 10016
  }

  lemma {:induction false} RenderedLength(pieces: seq<Piece>, replace: Replacer)
    requires Bounded(replace) && RenderAll(pieces, replace).Done?
    ensures |RenderAll(pieces, replace).text| <= |Source(pieces)| + 10016 * Placeholders(pieces)
    decreases |pieces|
  {
    if pieces != [] {
      var before, last := pieces[..|pieces| - 1], pieces[|pieces| - 1];
      assert pieces == before + [last];
      RenderedLength(before, replace);
      OneMorePiece(before, last, replace);
      LastOf(before, last);
    }
  }

  /** The last piece adds its own text to the source and itself to the count. */
  lemma {:induction false} LastOf(before: seq<Piece>, last: Piece)
    ensures |Source(before + [last])| == |Source(before)| + |last.text|
    ensures Placeholders(before + [last]) == Placeholders(before) + (if last.Placeholder? then 1 else 0)
    decreases |before|
  {
    var all := before + [last];
    if before == [] {
      assert all == [last] && [last][1..] == [];
    } else {
      assert all[0] == before[0] && all[1..] == before[1..] + [last];
      LastOf(before[1..], last);
    }
  }

  /** The result exceeds the template by at most 10016 characters a placeholder. */
  lemma InterpolatedLength(template: string, matches: Matcher, replace: Replacer)
    requires MatchesInside(matches) && Bounded(replace)
    ensures var pieces := Pieces(template, 0, matches);
      var r := RenderAll(pieces, replace);
      r.Done? ==> |r.text| <= |template| + 10016 * Placeholders(pieces)
  {
    var pieces := Pieces(template, 0, matches);
    PiecesPartition(template, 0, matches);
    assert template[0..] == template;
    if RenderAll(pieces, replace).Done? {
      RenderedLength(pieces, replace);
    }
  }

  lemma SourceOfFirst(p: Piece, rest: seq<Piece>, k: nat)
    requires 0 < k <= |rest| + 1
    ensures Source(([p] + rest)[..k]) == p.text + Source(rest[..k - 1])
  {
    assert ([p] + rest)[..k][1..] == rest[..k - 1];
  }

  lemma {:induction false} PieceStarts(
      template: string, i: nat, matches: Matcher, pieces: seq<Piece>, k: nat, start: nat)
    requires MatchesInside(matches) && i <= |template| && pieces == Pieces(template, i, matches)
    requires k < |pieces| && start == i + |Source(pieces[..k])|
    ensures start < |template| && pieces[k] == PieceAt(template, start, matches)
    decreases k
  {
    var p := PieceAt(template, i, matches);
    NextPiece(template, i, matches, p);
    if k > 0 {
      var rest := Pieces(template, i + |p.text|, matches);
      SourceOfFirst(p, rest, k);
      PieceStarts(template, i + |p.text|, matches, rest, k - 1, start);
    }
  }

  /** Each piece is rendered as the template says at the place where it starts: a match by the
      replacement for the step and the path that it names, anything else by the character. */
  lemma RenderedByPlace(template: string, matches: Matcher, replace: Replacer, k: nat)
    requires MatchesInside(matches) && k < |Pieces(template, 0, matches)|
    ensures var pieces := Pieces(template, 0, matches);
      var start := |Source(pieces[..k])|;
      && start < |template|
      && Render(pieces[k], replace) ==
         match matches(template, start)
         case None => Done([template[start]])
         case Some(h) => replace(h.step, h.path)
  {
    var pieces := Pieces(template, 0, matches);
    PieceStarts(template, 0, matches, pieces, k, |Source(pieces[..k])|);
  }

  /** What is rendered first stands first. */
  lemma {:induction false} RenderedInFront(before: seq<Piece>, rest: seq<Piece>, replace: Replacer)
    requires RenderAll(before + rest, replace).Done?
    ensures RenderAll(before, replace).Done?
    ensures RenderAll(before, replace).text <= RenderAll(before + rest, replace).text
    decreases |rest|
  {
    if rest == [] {
      assert before + rest == before;
    } else {
      assert (before + rest)[..|before + rest| - 1] == before + rest[..|rest| - 1];
      RenderedInFront(before, rest[..|rest| - 1], replace);
    }
  }

  /** Every piece of the template stands in the result as it was rendered, behind what the
      pieces before it were rendered to. */
  lemma InsertedVerbatim(template: string, matches: Matcher, replace: Replacer, k: nat)
    requires MatchesInside(matches)
    requires var pieces := Pieces(template, 0, matches); k < |pieces| && RenderAll(pieces, replace).Done?
    ensures var pieces := Pieces(template, 0, matches);
      var before, mine := RenderAll(pieces[..k], replace), Render(pieces[k], replace);
      && before.Done? && mine.Done?
      && At(mine.text, RenderAll(pieces, replace).text, |before.text|)
  {
    var pieces := Pieces(template, 0, matches);
    assert pieces == pieces[..k + 1] + pieces[k + 1..];
    RenderedInFront(pieces[..k + 1], pieces[k + 1..], replace);
    assert pieces[..k + 1][..k] == pieces[..k];
    var x, m := RenderAll(pieces[..k], replace).text, Render(pieces[k], replace).text;
    var whole := RenderAll(pieces, replace).text;
    assert x + m <= whole;
    assert whole[|x|..|x| + |m|] == m;
  }

  /** Piece k is the first that fails, and this is its failure. */
  predicate FailsAt(pieces: seq<Piece>, replace: Replacer, f: Failure, k: nat) {
    && k < |pieces| && Render(pieces[k], replace) == Failed(f)
    && forall j :: 0 <= j < k ==> Render(pieces[j], replace).Done?
  }

  lemma {:induction false} DoneIff(pieces: seq<Piece>, replace: Replacer)
    ensures RenderAll(pieces, replace).Done? <==> forall k :: 0 <= k < |pieces| ==> Render(pieces[k], replace).Done?
    decreases |pieces|
  {
    if pieces != [] {
      var before := pieces[..|pieces| - 1];
      DoneIff(before, replace);
      assert forall k :: 0 <= k < |before| ==> before[k] == pieces[k];
    }
  }

  /** Interpolation fails exactly when some piece does, with the failure of the first. */
  lemma {:induction false} FailsAtFirst(pieces: seq<Piece>, replace: Replacer, f: Failure)
    ensures RenderAll(pieces, replace) == Failed(f) <==> exists k :: FailsAt(pieces, replace, f, k)
    decreases |pieces|
  {
    if pieces != [] {
      var n := |pieces| - 1;
      var before := pieces[..n];
      FailsAtFirst(before, replace, f);
      DoneIff(before, replace);
      forall k: nat | k < n
        ensures FailsAt(before, replace, f, k) <==> FailsAt(pieces, replace, f, k)
      {
        assert forall j :: 0 <= j <= k ==> before[j] == pieces[j];
      }
      if RenderAll(before, replace).Done? {
        assert FailsAt(pieces, replace, f, n) <==> Render(pieces[n], replace) == Failed(f);
      }
    }
  }

  /** A single key and a path treat a missing key differently: the key reads as null, the path
      fails. They agree exactly when the key is there. */
  lemma SimpleKeyAgreesIff(output: map<string, Json>, key: string, read: SegmentReader)
    requires IsSimple(key) && read(key) == Some(Segment(key, None))
    ensures Resolve(Obj(output), key, read) == Reached(if key in output then output[key] else Null) <==> key in output
    ensures key !in output ==> Resolve(Obj(output), key, read) == Lost(KeyMissing([], key))
  {
    SplitWithout(key, DOT);
    assert [key][1..] == [];
    var first := Enter(Obj(output), key, [], read);
    assert Resolve(Obj(output), key, read) == WalkFrom(Obj(output), [], [key], read);
    assert first.Reached? ==> WalkFrom(Obj(output), [], [key], read) == WalkFrom(first.value, [] + [key], [], read);
  }
}
