/**
 The agent's event log, followed through a byte stream that arrives in chunks cut anywhere.
 Each newline-terminated line that is not blank and holds JSON becomes one event.
 */
module ProgressStream {
  import opened Prelude
  import opened Text

  newtype Byte = x: int | 0 <= x < 256

  const NEWLINE: seq<Byte> := [10]

  /** What the remote command's iterator yields. */
  datatype Item =
    | Chunk(stdout: bool, data: seq<Byte>)
    | Result              // the command ended
    | Broken(error: string)  // the iterator raised

  /** Decoding with replacement, and parsing a line that is not blank. */
  datatype Decoder<!E> = Decoder(decode: seq<Byte> -> string, parse: string -> Option<E>)

  datatype Entry<E> = Event(event: E) | Error(error: string) | Done

  /** The event of one raw line, if it has one. */
  function EventOf<E>(d: Decoder<E>, raw: seq<Byte>): Option<E> {
    var line := Strip(d.decode(raw));
    if line == "" then None else d.parse(line)
  }

  function EventsOf<E>(d: Decoder<E>, lines: seq<seq<Byte>>): seq<Entry<E>> {
    if lines == [] then []
    else
      EventsOf(d, lines[..|lines| - 1]) +
      match EventOf(d, lines[|lines| - 1]) case None => [] case Some(e) => [Event(e)]
  }

  /** The lines of a text that a newline ends ... */
  function Terminated(bytes: seq<Byte>): seq<seq<Byte>> {
    var parts := Split(bytes, NEWLINE);
    parts[..|parts| - 1]
  }

  /** ... and what follows the last newline. */
  function Remainder(bytes: seq<Byte>): seq<Byte> {
    var parts := Split(bytes, NEWLINE);
    parts[|parts| - 1]
  }

  /** Where the stream ends: at the first item that is not a chunk, or behind them all. */
  predicate EndsAt(items: seq<Item>, end: nat) {
    && end <= |items|
    && (forall i :: 0 <= i < end ==> items[i].Chunk?)
    && (end < |items| ==> !items[end].Chunk?)
  }

  function EndFrom(items: seq<Item>, n: nat): (end: nat)
    requires n <= |items| && forall i :: 0 <= i < n ==> items[i].Chunk?
    ensures EndsAt(items, end)
    decreases |items| - n
  {
    if n < |items| && items[n].Chunk? then EndFrom(items, n + 1) else n
  }

  /** What the command printed in the first n items. */
  function Printed(items: seq<Item>, n: nat): seq<Byte>
    requires n <= |items|
  {
    if n == 0 then []
    else if items[n - 1].Chunk? && items[n - 1].stdout then Printed(items, n - 1) + items[n - 1].data
    else Printed(items, n - 1)
  }

  /** How the stream closes the queue. */
  function Closing<E>(items: seq<Item>, end: nat): seq<Entry<E>> {
    if end < |items| && items[end].Broken? then [Error(items[end].error), Done] else [Done]
  }

  lemma LongerBefore(c: Byte, a: seq<seq<Byte>>, s: seq<seq<Byte>>)
    requires |a| > 1 && s != []
    ensures var r := Longer(c, a);
      && Longer(c, a[..|a| - 1] + s) == r[..|r| - 1] + s
      && r[|r| - 1] == a[|a| - 1]
  {
  }

  /** Cutting a text anywhere cuts the list of its lines at the remainder of the first part. */
  lemma {:induction false} SplitOfConcat(a: seq<Byte>, b: seq<Byte>)
    ensures Split(a + b, NEWLINE) == Terminated(a) + Split(Remainder(a) + b, NEWLINE)
    decreases |a|
  {
    if a == [] {
      assert a + b == b;
      assert Split(a, NEWLINE) == [[]];
      assert Remainder(a) + b == b;
    } else {
      assert (a + b)[1..] == a[1..] + b;
      SplitOfConcat(a[1..], b);
      if a[0] == 10 {
        AtNewline(a, b);
      } else {
        InLine(a, b);
      }
    }
  }

  lemma AtNewline(a: seq<Byte>, b: seq<Byte>)
    requires a != [] && a[0] == 10 && (a + b)[1..] == a[1..] + b
    requires Split(a[1..] + b, NEWLINE) == Terminated(a[1..]) + Split(Remainder(a[1..]) + b, NEWLINE)
    ensures Split(a + b, NEWLINE) == Terminated(a) + Split(Remainder(a) + b, NEWLINE)
  {
    var t, x := Terminated(a[1..]), Split(Remainder(a[1..]) + b, NEWLINE);
    SplitAtNewline(a);
    assert NEWLINE <= a + b;
    SplitNow(a + b, NEWLINE);
    EmptyInFront(t, x);
  }

  lemma EmptyInFront(t: seq<seq<Byte>>, x: seq<seq<Byte>>)
    ensures [[]] + (t + x) == ([[]] + t) + x
  {
  }

  lemma InLine(a: seq<Byte>, b: seq<Byte>)
    requires a != [] && a[0] != 10 && (a + b)[1..] == a[1..] + b
    requires Split(a[1..] + b, NEWLINE) == Terminated(a[1..]) + Split(Remainder(a[1..]) + b, NEWLINE)
    ensures Split(a + b, NEWLINE) == Terminated(a) + Split(Remainder(a) + b, NEWLINE)
  {
    SplitInLine(a);
    SplitInLine(a + b);
    var rest, tail := Split(a[1..], NEWLINE), Remainder(a[1..]);
    if |rest| == 1 {
      var line := [a[0]] + tail;
      assert Split(a, NEWLINE) == [line];
      assert line + b == [a[0]] + (tail + b);
      assert (line + b)[1..] == tail + b;
      SplitInLine(line + b);
      assert Terminated(a) == [] && Terminated(a[1..]) == [];
    } else {
      LongerBefore(a[0], rest, Split(tail + b, NEWLINE));
    }
  }

  lemma SplitAtNewline(a: seq<Byte>)
    requires a != [] && a[0] == 10
    ensures Split(a, NEWLINE) == [[]] + Split(a[1..], NEWLINE)
    ensures Terminated(a) == [[]] + Terminated(a[1..]) && Remainder(a) == Remainder(a[1..])
  {
    assert NEWLINE <= a;
  }

  lemma SplitInLine(a: seq<Byte>)
    requires a != [] && a[0] != 10
    ensures Split(a, NEWLINE) == Longer(a[0], Split(a[1..], NEWLINE))
  {
    SplitOff(a, NEWLINE);
  }

  lemma CutLines(a: seq<Byte>, b: seq<Byte>)
    ensures Terminated(a + b) == Terminated(a) + Terminated(Remainder(a) + b)
    ensures Remainder(a + b) == Remainder(Remainder(a) + b)
  {
    SplitOfConcat(a, b);
  }

  lemma {:induction false} EventsOfConcat<E>(d: Decoder<E>, a: seq<seq<Byte>>, b: seq<seq<Byte>>)
    ensures EventsOf(d, a + b) == EventsOf(d, a) + EventsOf(d, b)
    decreases |b|
  {
    if b == [] {
      assert a + b == a;
    } else {
      assert (a + b)[..|a + b| - 1] == a + b[..|b| - 1];
      EventsOfConcat(d, a, b[..|b| - 1]);
    }
  }

  /** The last part of the split of a text that ends in a newline is empty. */
  lemma {:induction false} EndsInNewline(bytes: seq<Byte>)
    requires bytes != [] && bytes[|bytes| - 1] == 10
    ensures Remainder(bytes) == []
    decreases |bytes|
  {
    if |bytes| == 1 {
      SplitAtNewline(bytes);
    } else {
      EndsInNewline(bytes[1..]);
      if bytes[0] == 10 {
        SplitAtNewline(bytes);
      } else {
        SplitInLine(bytes);
        OneLine(bytes[1..]);
      }
    }
  }

  lemma OneLine(bytes: seq<Byte>)
    requires bytes != [] && Remainder(bytes) == []
    ensures |Split(bytes, NEWLINE)| > 1
  {
    JoinSplit(bytes, NEWLINE);
  }

  /** The queue that the consuming thread fills. */
  method SyncStream<E>(items: seq<Item>, d: Decoder<E>) returns (queue: seq<Entry<E>>)
    requires d.decode([]) == ""
    ensures var end := EndFrom(items, 0);
      queue == EventsOf(d, Terminated(Printed(items, end))) + Closing(items, end)
  {
    var partial: seq<Byte> := [];
    queue := [];
    NothingYet(d);
    var n := 0;
    while n < |items|
      invariant 0 <= n <= |items|
      invariant forall i :: 0 <= i < n ==> items[i].Chunk?
      invariant CaughtUp(d, Printed(items, n), partial, queue)
    {
      var item := items[n];
      match item {
        case Result =>
          EndIsUnique(items, n, EndFrom(items, 0));
          return queue + [Done];
        case Broken(error) =>
          EndIsUnique(items, n, EndFrom(items, 0));
          return queue + [Error(error), Done];
        case Chunk(stdout, bytes) =>
          if stdout {
            partial, queue := TakeChunk(d, Printed(items, n), partial, queue, bytes);
          }
      }
      n := n + 1;
    }
    EndIsUnique(items, n, EndFrom(items, 0));
    return queue + [Done];
  }

  /** All events of the bytes seen are in the queue, and the unfinished line is kept. */
  ghost predicate CaughtUp<E>(d: Decoder<E>, seen: seq<Byte>, partial: seq<Byte>, queue: seq<Entry<E>>) {
    partial == Remainder(seen) && queue == EventsOf(d, Terminated(seen))
  }

  lemma NothingYet<E>(d: Decoder<E>)
    ensures CaughtUp(d, [], [], [])
  {
  }

  /** One stdout chunk: the lines it completes, and the part of a line it leaves. */
  method TakeChunk<E>(d: Decoder<E>, ghost seen: seq<Byte>, partial: seq<Byte>, queue: seq<Entry<E>>, bytes: seq<Byte>)
    returns (rest: seq<Byte>, longer: seq<Entry<E>>)
    requires d.decode([]) == "" && CaughtUp(d, seen, partial, queue)
    ensures CaughtUp(d, seen + bytes, rest, longer)
  {
    var data := partial + bytes;
    CutLines(seen, bytes);
    var lines := Split(data, NEWLINE);
    if data == [] || data[|data| - 1] != 10 {
      rest := lines[|lines| - 1];
      lines := lines[..|lines| - 1];
    } else {
      EndsInNewline(data);
      rest := [];
    }
    LinesOfChunk(d, seen, bytes, lines);
    var events := Emit(d, lines);
    longer := queue + events;
  }

  method Emit<E>(d: Decoder<E>, lines: seq<seq<Byte>>) returns (events: seq<Entry<E>>)
    ensures events == EventsOf(d, lines)
  {
    events := [];
    for i := 0 to |lines|
      invariant events == EventsOf(d, lines[..i])
    {
      assert lines[..i + 1][..i] == lines[..i];
      var line := Strip(d.decode(lines[i]));
      if line != "" {
        match d.parse(line) {
          case None =>
          case Some(e) => events := events + [Event(e)];
        }
      }
    }
    assert lines[..|lines|] == lines;
  }

  /** The lines cut from one chunk add the events that the chunk completes. */
  lemma LinesOfChunk<E>(d: Decoder<E>, seen: seq<Byte>, bytes: seq<Byte>, lines: seq<seq<Byte>>)
    requires d.decode([]) == ""
    requires var data := Remainder(seen) + bytes;
      || lines == Terminated(data)
      || (lines == Split(data, NEWLINE) && Remainder(data) == [])
    ensures EventsOf(d, Terminated(seen + bytes)) == EventsOf(d, Terminated(seen)) + EventsOf(d, lines)
  {
    var data := Remainder(seen) + bytes;
    CutLines(seen, bytes);
    EventsOfConcat(d, Terminated(seen), Terminated(data));
    if lines != Terminated(data) {
      assert lines[..|lines| - 1] == Terminated(data);
      assert EventOf(d, []) == None;
    }
  }

  /** A stream ends at one place, so its queue depends on the bytes printed before it and not
      on how they were cut or what was printed beside them. */
  lemma EndIsUnique(items: seq<Item>, x: nat, y: nat)
    requires EndsAt(items, x) && EndsAt(items, y)
    ensures x == y
  {
  }

  /** Nothing is held back: more output only adds events behind those already sent. */
  lemma EventsOnlyGrow<E>(d: Decoder<E>, early: seq<Byte>, more: seq<Byte>)
    ensures EventsOf(d, Terminated(early)) <= EventsOf(d, Terminated(early + more))
  {
    CutLines(early, more);
    EventsOfConcat(d, Terminated(early), Terminated(Remainder(early) + more));
  }

  /** The terminated lines are the text up to its last newline. */
  lemma LinesAreTheText(bytes: seq<Byte>)
    ensures Join(Terminated(bytes) + [Remainder(bytes)], NEWLINE) == bytes
    ensures forall i :: 0 <= i < |Terminated(bytes)| ==> !Occurs(NEWLINE, Terminated(bytes)[i])
    ensures !Occurs(NEWLINE, Remainder(bytes))
  {
    var parts := Split(bytes, NEWLINE);
    assert Terminated(bytes) + [Remainder(bytes)] == parts;
    JoinSplit(bytes, NEWLINE);
    forall p | 0 <= p < |parts|
      ensures !Occurs(NEWLINE, parts[p])
    {
      PartsAreFree(bytes, NEWLINE, p);
    }
  }
}
