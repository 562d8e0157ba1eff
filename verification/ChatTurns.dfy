/**
 A chat turn on its way into the transcript store: the run's message parts become bounded
 transcript events, and `_save_turn` turns the tool events back into conversation
 messages, dropping every call whose arguments may have been cut together with the
 result that first-in-first-out order pairs with it.
 */
module ChatTurns {
  import opened Prelude
  import opened Json

  const MAX_FIELD := 2000

  /** A part of a run's message history, as far as transcript events are concerned. */
  datatype RunPart =
    | ThinkingPart(text: string)
    | CallPart(tool: string, args: Json)
    | ReturnPart(content: Json)
    | RetryPart(content: Json)
    | TextPart

  /** A canonical transcript event. A missing tool name reads as "", an explicit null as None. */
  datatype Event =
    | ToolCall(name: Option<string>, input: Json)
    | ToolResult(output: Json)
    | OtherEvent

  datatype Message =
    | User(text: string)
    | Assistant(text: string)
    | Call(tool: Option<string>, args: Json, callId: Option<string>)
    | Result(tool: Option<string>, content: string, callId: Option<string>)

  datatype Turn = Turn(prompt: string, events: seq<Event>, output: Option<string>)

  // ---------------------------------------------------------------- events

  function Stringify(c: Codec, v: Json): string {
    if v.Str? then v.s else c.dumps(v)
  }

  function Cut(s: string): string {
    if |s| > MAX_FIELD then s[..MAX_FIELD] else s
  }

  /** The event a part contributes, if any; `blank` says which thinking is blank once
      stripped and cut. */
  function EventOf(c: Codec, blank: string -> bool, p: RunPart): Option<Event> {
    match p
    case ThinkingPart(text) => if blank(text) then None else Some(OtherEvent)
    case CallPart(tool, args) => Some(ToolCall(Some(tool), Str(Cut(Stringify(c, args)))))
    case ReturnPart(content) => Some(ToolResult(Str(Cut(Stringify(c, content)))))
    case RetryPart(content) => Some(ToolResult(Str(Cut(Stringify(c, content)))))
    case TextPart => None
  }

  /** The transcript of a run: the events of its parts, then the run's result event. */
  function Transcript(c: Codec, blank: string -> bool, parts: seq<RunPart>): seq<Event> {
    if parts == [] then [OtherEvent]
    else
      var rest := Transcript(c, blank, parts[1..]);
      match EventOf(c, blank, parts[0])
      case None => rest
      case Some(e) => [e] + rest
  }

  method TranscriptEvents(c: Codec, blank: string -> bool, messages: seq<seq<RunPart>>) returns (events: seq<Event>)
    ensures events == Transcript(c, blank, Concat(messages))
  {
    events := [];
    var i := 0;
    while i < |messages|
      invariant 0 <= i <= |messages|
      invariant events + Transcript(c, blank, Concat(messages[i..])) == Transcript(c, blank, Concat(messages))
    {
      assert messages[i..][1..] == messages[i + 1..];
      events := AddParts(c, blank, events, messages[i], Concat(messages[i + 1..]));
      i := i + 1;
    }
    events := events + [OtherEvent];
  }

  /** The events of one message's parts. */
  method AddParts(c: Codec, blank: string -> bool, events: seq<Event>, parts: seq<RunPart>, ghost later: seq<RunPart>)
    returns (more: seq<Event>)
    ensures more + Transcript(c, blank, later) == events + Transcript(c, blank, parts + later)
  {
    more := events;
    assert parts[0..] + later == parts + later;
    var j := 0;
    while j < |parts|
      invariant 0 <= j <= |parts|
      invariant more + Transcript(c, blank, parts[j..] + later) == events + Transcript(c, blank, parts + later)
    {
      ghost var here := parts[j..] + later;
      assert here[0] == parts[j] && here[1..] == parts[j + 1..] + later;
      var e := EventOf(c, blank, parts[j]);
      if e.Some? {
        ghost var rest := Transcript(c, blank, here[1..]);
        assert more + ([e.value] + rest) == (more + [e.value]) + rest;
        more := more + [e.value];
      }
      j := j + 1;
    }
    assert parts[j..] + later == later;
  }

  function Concat<T>(ss: seq<seq<T>>): seq<T> {
    if ss == [] then [] else ss[0] + Concat(ss[1..])
  }

  // ---------------------------------------------------------------- saving

  /** The arguments a call event is saved with, or None when the call is dropped. */
  function KeptArgs(c: Codec, input: Json): Option<Json> {
    if input.Str? then
      if |input.s| >= MAX_FIELD then None
      else
        var v := c.loads(input.s);
        if v.Some? && v.value.Obj? then v else None
    else if input.Obj? then Some(input)
    else None
  }

  function ContentOf(c: Codec, output: Json): string {
    if output.Obj? || output.Arr? then c.dumps(output) else c.show(output)
  }

  /** The message one event adds, given the queue of unanswered calls' names (None for a
      dropped call). */
  function Emit(c: Codec, e: Event, pending: seq<Option<string>>): seq<Message> {
    match e
    case ToolCall(name, input) =>
      var args := KeptArgs(c, input);
      if args.None? then [] else [Call(name, args.value, None)]
    case ToolResult(output) =>
      if pending == [] || pending[0].None? then []
      else [Result(pending[0], ContentOf(c, output), None)]
    case OtherEvent => []
  }

  /** The queue after one event. */
  function Enqueue(c: Codec, e: Event, pending: seq<Option<string>>): seq<Option<string>> {
    match e
    case ToolCall(name, input) => pending + [if KeptArgs(c, input).None? then None else name]
    case ToolResult(_) => if pending == [] then [] else pending[1..]
    case OtherEvent => pending
  }

  /** The messages of the tool events, given the queue of unanswered calls. */
  function SaveEvents(c: Codec, events: seq<Event>, pending: seq<Option<string>>): seq<Message> {
    if events == [] then []
    else Emit(c, events[0], pending) + SaveEvents(c, events[1..], Enqueue(c, events[0], pending))
  }

  function SaveTurn(c: Codec, t: Turn): seq<Message> {
    [User(t.prompt)] + SaveEvents(c, t.events, []) +
    (if t.output.Some? then [Assistant(t.output.value)] else [])
  }

  method BuildTurnMessages(c: Codec, t: Turn) returns (messages: seq<Message>)
    ensures messages == SaveTurn(c, t)
  {
    messages := [User(t.prompt)];
    var pending: seq<Option<string>> := [];
    var i := 0;
    while i < |t.events|
      invariant 0 <= i <= |t.events|
      invariant messages + SaveEvents(c, t.events[i..], pending) == [User(t.prompt)] + SaveEvents(c, t.events, [])
    {
      ghost var saved, queue := messages, pending;
      match t.events[i] {
        case ToolCall(name, input) =>
          var args := KeptArgs(c, input);
          if args.None? {
            pending := pending + [None];
          } else {
            pending := pending + [name];
            messages := messages + [Call(name, args.value, None)];
          }
        case ToolResult(output) =>
          if pending != [] {
            var paired := pending[0];
            pending := pending[1..];
            if paired.Some? {
              messages := messages + [Result(paired, ContentOf(c, output), None)];
            }
          }
        case OtherEvent =>
      }
      SaveOne(c, t.events, i, saved, queue, messages, pending);
      i := i + 1;
    }
    if t.output.Some? {
      messages := messages + [Assistant(t.output.value)];
    }
  }

  lemma SaveOne(c: Codec, events: seq<Event>, i: nat, saved: seq<Message>, queue: seq<Option<string>>,
                messages: seq<Message>, pending: seq<Option<string>>)
    requires i < |events| && pending == Enqueue(c, events[i], queue)
    requires messages == saved + Emit(c, events[i], queue)
    ensures saved + SaveEvents(c, events[i..], queue) == messages + SaveEvents(c, events[i + 1..], pending)
  {
    assert events[i..][1..] == events[i + 1..];
  }

  // ---------------------------------------------------------------- no cut arguments

  function Calls(messages: seq<Message>): seq<Message> {
    if messages == [] then []
    else (if messages[0].Call? then [messages[0]] else []) + Calls(messages[1..])
  }

  lemma {:induction false} CallsOfConcat(a: seq<Message>, b: seq<Message>)
    ensures Calls(a + b) == Calls(a) + Calls(b)
  {
    if a == [] {
      assert a + b == b;
    } else {
      var first := if a[0].Call? then [a[0]] else [];
      var both := Calls(a[1..] + b);
      assert (a + b)[0] == a[0] && (a + b)[1..] == a[1..] + b;
      CallsOfConcat(a[1..], b);
      assert Calls(a + b) == first + both;
    }
  }

  /** What a call was made with: an object, or the object its argument text stands for. */
  function OriginalArgs(c: Codec, args: Json): Option<Json> {
    if args.Str? then c.loads(args.s) else Some(args)
  }

  /** The calls that survive: their full argument text is short of the bound and stands
      for an object. They carry their original arguments. */
  function SurvivingCalls(c: Codec, parts: seq<RunPart>): seq<Message> {
    if parts == [] then []
    else
      (match parts[0]
       case CallPart(tool, args) =>
         var original := OriginalArgs(c, args);
         if |Stringify(c, args)| < MAX_FIELD && original.Some? && original.value.Obj?
         then [Call(Some(tool), original.value, None)] else []
       case _ => [])
      + SurvivingCalls(c, parts[1..])
  }

  /** No cut arguments are ever saved: whatever the pairing of results, the calls saved from
      a run are exactly the surviving ones, in order, with their original arguments. */
  lemma {:induction false} SavedCallsAreOriginal(c: Codec, blank: string -> bool, parts: seq<RunPart>,
                                                 pending: seq<Option<string>>)
    requires Faithful(c)
    ensures Calls(SaveEvents(c, Transcript(c, blank, parts), pending)) == SurvivingCalls(c, parts)
  {
    var events := Transcript(c, blank, parts);
    if parts == [] {
      assert events[1..] == [];
    } else {
      var rest := Transcript(c, blank, parts[1..]);
      var e := EventOf(c, blank, parts[0]);
      if e.None? {
        SavedCallsAreOriginal(c, blank, parts[1..], pending);
      } else {
        assert events[1..] == rest;
        var next := Enqueue(c, e.value, pending);
        SavedCallsAreOriginal(c, blank, parts[1..], next);
        CallsOfConcat(Emit(c, e.value, pending), SaveEvents(c, rest, next));
        if parts[0].CallPart? {
          CutIsNoticed(c, parts[0].args);
        }
      }
    }
  }

  /** The bound on saving sees every cut: a text is cut to exactly the length that is refused. */
  lemma CutIsNoticed(c: Codec, args: Json)
    requires Faithful(c)
    ensures var original := OriginalArgs(c, args);
      KeptArgs(c, Str(Cut(Stringify(c, args)))) ==
      if |Stringify(c, args)| < MAX_FIELD && original.Some? && original.value.Obj? then original else None
  {
  }

  /** Arguments that come as an object are kept as they are, and nothing else but text is. */
  lemma ObjectArgsAreKept(c: Codec, input: Json)
    requires !input.Str?
    ensures KeptArgs(c, input) == if input.Obj? then Some(input) else None
  {
  }

  /** The content a result is saved with: a text itself, and anything structured as JSON that
      reads back as what it was. */
  lemma ContentIsFaithful(c: Codec, output: Json)
    requires Faithful(c) && forall s :: c.show(Str(s)) == s
    ensures output.Str? ==> ContentOf(c, output) == output.s
    ensures output.Obj? || output.Arr? ==> c.loads(ContentOf(c, output)) == Some(output)
    ensures !output.Str? && !output.Obj? && !output.Arr? ==> ContentOf(c, output) == c.show(output)
  {
  }

  // ---------------------------------------------------------------- results are kept

  /** The text a part gives back to the model, if it does. */
  function ReturnedText(c: Codec, p: RunPart): Option<string> {
    match p
    case ReturnPart(content) => Some(if content.Str? then content.s else c.dumps(content))
    case RetryPart(content) => Some(if content.Str? then content.s else c.dumps(content))
    case _ => None
  }

  /** The first 2000 characters. */
  function Bounded(text: string): Json {
    Str(if |text| > 2000 then text[..2000] else text)
  }

  /** What the result events of a run are to hold: the start of each text given back, in order. */
  function ReturnedTexts(c: Codec, parts: seq<RunPart>): seq<Json> {
    if parts == [] then []
    else
      var t := ReturnedText(c, parts[0]);
      var kept := if t.None? then [] else [Bounded(t.value)];
      kept + ReturnedTexts(c, parts[1..])
  }

  function ResultOutputs(events: seq<Event>): seq<Json> {
    if events == [] then []
    else (if events[0].ToolResult? then [events[0].output] else []) + ResultOutputs(events[1..])
  }

  /** The result events of a run are, in order, one for each return and each retry. */
  lemma {:induction false} ResultsAreReturned(c: Codec, blank: string -> bool, parts: seq<RunPart>)
    ensures ResultOutputs(Transcript(c, blank, parts)) == ReturnedTexts(c, parts)
  {
    if parts != [] {
      ResultsAreReturned(c, blank, parts[1..]);
      var e := EventOf(c, blank, parts[0]);
      var rest := Transcript(c, blank, parts[1..]);
      assert e.Some? ==> ([e.value] + rest)[1..] == rest;
    }
  }

  /** ... and what the call events are: the start of each call's argument text, in order. */
  function CallsMade(c: Codec, parts: seq<RunPart>): seq<Event> {
    if parts == [] then []
    else
      var made := match parts[0]
        case CallPart(tool, args) => [ToolCall(Some(tool), Bounded(if args.Str? then args.s else c.dumps(args)))]
        case _ => [];
      made + CallsMade(c, parts[1..])
  }

  function CallEvents(events: seq<Event>): seq<Event> {
    if events == [] then [] else (if events[0].ToolCall? then [events[0]] else []) + CallEvents(events[1..])
  }

  /** The call events of a run are, in order, one for each call. */
  lemma {:induction false} CallsAreRecorded(c: Codec, blank: string -> bool, parts: seq<RunPart>)
    ensures CallEvents(Transcript(c, blank, parts)) == CallsMade(c, parts)
  {
    if parts != [] {
      CallsAreRecorded(c, blank, parts[1..]);
      var e := EventOf(c, blank, parts[0]);
      var rest := Transcript(c, blank, parts[1..]);
      assert e.Some? ==> ([e.value] + rest)[1..] == rest;
    }
  }

  function EventfulParts(blank: string -> bool, parts: seq<RunPart>): nat {
    if parts == [] then 0
    else
      (if parts[0].TextPart? || (parts[0].ThinkingPart? && blank(parts[0].text)) then 0 else 1)
      + EventfulParts(blank, parts[1..])
  }

  /** Every other part but text and blank thinking makes an event too, and one more ends the
      transcript. */
  lemma {:induction false} TranscriptLength(c: Codec, blank: string -> bool, parts: seq<RunPart>)
    ensures var events := Transcript(c, blank, parts);
      |events| == EventfulParts(blank, parts) + 1 && events[|events| - 1] == OtherEvent
  {
    if parts != [] {
      TranscriptLength(c, blank, parts[1..]);
    }
  }

  // ---------------------------------------------------------------- pairing, by counting

  /** How many of the first k events are calls. */
  function CallCount(events: seq<Event>, k: nat): nat
    requires k <= |events|
  {
    if k == 0 then 0 else CallCount(events, k - 1) + (if events[k - 1].ToolCall? then 1 else 0)
  }

  /** How many of the first k events are results that some call was waiting for. */
  function AnsweredCount(events: seq<Event>, k: nat): (n: nat)
    requires k <= |events|
    ensures n <= CallCount(events, k)
  {
    if k == 0 then 0
    else
      var n := AnsweredCount(events, k - 1);
      n + (if events[k - 1].ToolResult? && n < CallCount(events, k - 1) then 1 else 0)
  }

  /** The position of the n-th call. */
  function CallAt(events: seq<Event>, n: nat): (j: nat)
    requires n < CallCount(events, |events|)
    ensures j < |events| && events[j].ToolCall? && CallCount(events, j) == n
  {
    CallAtFrom(events, n, |events|)
  }

  function CallAtFrom(events: seq<Event>, n: nat, k: nat): (j: nat)
    requires k <= |events| && n < CallCount(events, k)
    ensures j < k && events[j].ToolCall? && CallCount(events, j) == n
  {
    if events[k - 1].ToolCall? && CallCount(events, k - 1) == n then k - 1 else CallAtFrom(events, n, k - 1)
  }

  lemma {:induction false} CallCountGrows(events: seq<Event>, k: nat, l: nat)
    requires k <= l <= |events|
    ensures CallCount(events, k) <= CallCount(events, l)
    decreases l
  {
    if k < l {
      CallCountGrows(events, k, l - 1);
    }
  }

  /** The call that first-in-first-out order pairs with the result at position k. */
  function PairedCall(events: seq<Event>, k: nat): Option<nat>
    requires k < |events| && events[k].ToolResult?
  {
    if AnsweredCount(events, k) < CallCount(events, k) then
      CallCountGrows(events, k, |events|);
      Some(CallAt(events, AnsweredCount(events, k)))
    else None
  }

  /** The name a call event leaves in the queue. */
  function QueuedName(c: Codec, e: Event): Option<string>
    requires e.ToolCall?
  {
    if KeptArgs(c, e.input).None? then None else e.name
  }

  /** What event k contributes to the saved messages, told without a queue: a kept call
      contributes itself, and a result contributes itself under its paired call's name
      exactly when that call is kept (and named). */
  function Contribution(c: Codec, events: seq<Event>, k: nat): seq<Message>
    requires k < |events|
  {
    match events[k]
    case ToolCall(name, input) =>
      var args := KeptArgs(c, input);
      if args.None? then [] else [Call(name, args.value, None)]
    case ToolResult(output) =>
      var paired := PairedCall(events, k);
      if paired.None? || QueuedName(c, events[paired.value]).None? then []
      else [Result(QueuedName(c, events[paired.value]), ContentOf(c, output), None)]
    case OtherEvent => []
  }

  function Contributions(c: Codec, events: seq<Event>, k: nat): seq<Message>
    requires k <= |events|
    decreases |events| - k
  {
    if k == |events| then [] else Contribution(c, events, k) + Contributions(c, events, k + 1)
  }

  /** The queue before event k holds the names of the unanswered calls. */
  ghost predicate QueueAt(c: Codec, events: seq<Event>, k: nat, pending: seq<Option<string>>)
    requires k <= |events|
  {
    var answered, called, total := AnsweredCount(events, k), CallCount(events, k), CallCount(events, |events|);
    && called <= total
    && |pending| == called - answered
    && forall i :: 0 <= i < |pending| ==> pending[i] == QueuedName(c, events[CallAt(events, answered + i)])
  }

  lemma CallAtIs(events: seq<Event>, j: nat)
    requires j < |events| && events[j].ToolCall?
    ensures CallCount(events, j) < CallCount(events, |events|)
    ensures CallAt(events, CallCount(events, j)) == j
  {
    CallCountGrows(events, j + 1, |events|);
    var k := CallAt(events, CallCount(events, j));
    if k < j {
      CallCountGrows(events, k + 1, j);
    } else if j < k {
      CallCountGrows(events, j + 1, k);
    }
  }

  lemma QueueGrows(c: Codec, events: seq<Event>, k: nat, pending: seq<Option<string>>)
    requires k < |events| && events[k].ToolCall? && QueueAt(c, events, k, pending)
    ensures QueueAt(c, events, k + 1, pending + [QueuedName(c, events[k])])
  {
    CallCountGrows(events, k + 1, |events|);
    CallAtIs(events, k);
  }

  lemma QueuePops(c: Codec, events: seq<Event>, k: nat, pending: seq<Option<string>>)
    requires k < |events| && events[k].ToolResult? && pending != [] && QueueAt(c, events, k, pending)
    ensures QueueAt(c, events, k + 1, pending[1..])
    ensures PairedCall(events, k).Some? && pending[0] == QueuedName(c, events[PairedCall(events, k).value])
  {
    var answered, next := AnsweredCount(events, k), pending[1..];
    assert CallCount(events, k + 1) == CallCount(events, k) && AnsweredCount(events, k + 1) == answered + 1;
    forall i | 0 <= i < |next|
      ensures next[i] == QueuedName(c, events[CallAt(events, answered + 1 + i)])
    {
      assert next[i] == pending[i + 1];
    }
  }

  lemma QueueWaits(c: Codec, events: seq<Event>, k: nat, pending: seq<Option<string>>)
    requires k < |events| && !events[k].ToolCall? && QueueAt(c, events, k, pending)
    requires events[k].ToolResult? ==> pending == []
    ensures QueueAt(c, events, k + 1, pending)
    ensures events[k].ToolResult? ==> PairedCall(events, k).None?
  {
    assert CallCount(events, k + 1) == CallCount(events, k);
    assert AnsweredCount(events, k + 1) == AnsweredCount(events, k);
  }

  lemma QueueShrinks(c: Codec, events: seq<Event>, k: nat, pending: seq<Option<string>>)
    requires k < |events| && !events[k].ToolCall? && QueueAt(c, events, k, pending)
    ensures QueueAt(c, events, k + 1, if events[k].ToolResult? && pending != [] then pending[1..] else pending)
    ensures events[k].ToolResult? ==> (pending == [] <==> PairedCall(events, k).None?)
    ensures events[k].ToolResult? && pending != [] ==>
              pending[0] == QueuedName(c, events[PairedCall(events, k).value])
  {
    if events[k].ToolResult? && pending != [] {
      QueuePops(c, events, k, pending);
    } else {
      QueueWaits(c, events, k, pending);
    }
  }

  lemma {:induction false} SaveFrom(c: Codec, events: seq<Event>, k: nat, pending: seq<Option<string>>)
    requires k <= |events| && QueueAt(c, events, k, pending)
    ensures SaveEvents(c, events[k..], pending) == Contributions(c, events, k)
    decreases |events| - k
  {
    if k < |events| {
      assert events[k..][1..] == events[k + 1..];
      if events[k].ToolCall? {
        QueueGrows(c, events, k, pending);
      } else {
        QueueShrinks(c, events, k, pending);
      }
      SaveFrom(c, events, k + 1, Enqueue(c, events[k], pending));
    }
  }

  /** A result that first-in-first-out order pairs with a kept, named call is saved under that
      call's name, with its own text. */
  lemma PairedResultIsSaved(c: Codec, events: seq<Event>, k: nat, text: string)
    requires forall s :: c.show(Str(s)) == s
    requires k < |events| && events[k] == ToolResult(Str(text)) && PairedCall(events, k).Some?
    ensures var call := events[PairedCall(events, k).value];
      Contribution(c, events, k) ==
      if KeptArgs(c, call.input).Some? && call.name.Some? then [Result(call.name, text, None)] else []
  {
  }

  function ResultCount(events: seq<Event>, k: nat): nat
    requires k <= |events|
  {
    if k == 0 then 0 else (if events[0].ToolResult? then 1 else 0) + ResultCount(events[1..], k - 1)
  }

  lemma {:induction false} ResultAt(events: seq<Event>, k: nat)
    requires k < |events| && events[k].ToolResult?
    ensures var n := ResultCount(events, k);
      n < |ResultOutputs(events)| && ResultOutputs(events)[n] == events[k].output
  {
    if k > 0 {
      ResultAt(events[1..], k - 1);
    }
  }

  lemma {:induction false} ReturnedTextsAreTexts(c: Codec, parts: seq<RunPart>, n: nat)
    requires n < |ReturnedTexts(c, parts)|
    ensures ReturnedTexts(c, parts)[n].Str?
  {
    var here := if ReturnedText(c, parts[0]).Some? then 1 else 0;
    if n >= here {
      ReturnedTextsAreTexts(c, parts[1..], n - here);
    }
  }

  /** From a run's parts to its saved messages: the n-th result event holds the n-th text given
      back, cut, and is saved with exactly that text under the name of the call that
      first-in-first-out order pairs it with, if that call is kept. */
  lemma ReturnedIsSaved(c: Codec, blank: string -> bool, parts: seq<RunPart>, k: nat)
    requires forall s :: c.show(Str(s)) == s
    requires var events := Transcript(c, blank, parts);
      k < |events| && events[k].ToolResult? && PairedCall(events, k).Some?
    ensures var events := Transcript(c, blank, parts);
      var n, call := ResultCount(events, k), events[PairedCall(events, k).value];
      && n < |ReturnedTexts(c, parts)| && ReturnedTexts(c, parts)[n].Str?
      && Contribution(c, events, k) ==
         if KeptArgs(c, call.input).Some? && call.name.Some?
         then [Result(call.name, ReturnedTexts(c, parts)[n].s, None)] else []
  {
    var events := Transcript(c, blank, parts);
    ResultsAreReturned(c, blank, parts);
    ResultAt(events, k);
    ReturnedTextsAreTexts(c, parts, ResultCount(events, k));
    PairedResultIsSaved(c, events, k, events[k].output.s);
  }

  /** The queue computes first-in-first-out pairing: for every event list, the saved
      messages are the events' contributions, so a dropped call's result is dropped too. */
  lemma SavedByPairing(c: Codec, events: seq<Event>)
    ensures SaveEvents(c, events, []) == Contributions(c, events, 0)
  {
    SaveFrom(c, events, 0, []);
    assert events[0..] == events;
  }
}
