/**
 Rebuilding the provider's message history from saved turns. Tool messages carry no call
 id, so ids are made up from a counter and a second first-in-first-out queue, which runs
 across turns, must agree with the one `_save_turn` ran inside each turn: a provider
 rejects a tool return whose id matches no earlier call.
 */
module ChatHistory {
  import opened Prelude
  import opened Json
  import opened Decimal
  import opened ChatTurns

  datatype Part =
    | PromptPart(text: string)
    | ReplyPart(text: string)
    | ToolCallPart(tool: Option<string>, args: Json, id: string)
    | ToolReturnPart(tool: Option<string>, content: string, id: string)

  datatype ModelMessage = Request(parts: seq<Part>) | Response(parts: seq<Part>)

  datatype Waiting = Waiting(tool: Option<string>, id: string)

  /** The loop's running state: the id counter and the calls not answered yet. */
  datatype Cursor = Cursor(counter: nat, pending: seq<Waiting>)

  const START := Cursor(0, [])

  function Shown(tool: Option<string>): string {
    if tool.Some? then tool.value else "None"
  }

  function SynthId(tool: Option<string>, n: nat): string {
    "call_" + Shown(tool) + "_" + Dec(n)
  }

  predicate Given(id: Option<string>) {
    id.Some? && id.value != ""
  }

  function Without(pending: seq<Waiting>, id: string): seq<Waiting> {
    if pending == [] then []
    else if pending[0].id == id then pending[1..]
    else [pending[0]] + Without(pending[1..], id)
  }

  function IdFor(m: Message, cur: Cursor): string
    requires m.Call? || m.Result?
  {
    if Given(m.callId) then m.callId.value
    else if m.Result? && cur.pending != [] then cur.pending[0].id
    else SynthId(m.tool, cur.counter)
  }

  function PartFor(m: Message, cur: Cursor): Part {
    match m
    case User(text) => PromptPart(text)
    case Assistant(text) => ReplyPart(text)
    case Call(tool, args, _) => ToolCallPart(tool, args, IdFor(m, cur))
    case Result(tool, content, _) => ToolReturnPart(tool, content, IdFor(m, cur))
  }

  function Advance(m: Message, cur: Cursor): Cursor {
    match m
    case User(_) => cur
    case Assistant(_) => cur
    case Call(tool, _, _) => Cursor(cur.counter + 1, cur.pending + [Waiting(tool, IdFor(m, cur))])
    case Result(_, _, id) =>
      if Given(id) then cur.(pending := Without(cur.pending, id.value))
      else if cur.pending != [] then cur.(pending := cur.pending[1..])
      else cur.(counter := cur.counter + 1)
  }

  /** The running state after the first k messages, and the part message k becomes. */
  function CursorAt(ms: seq<Message>, k: nat): Cursor
    requires k <= |ms|
  {
    if k == 0 then START else Advance(ms[k - 1], CursorAt(ms, k - 1))
  }

  function PartAt(ms: seq<Message>, k: nat): Part
    requires k < |ms|
  {
    PartFor(ms[k], CursorAt(ms, k))
  }

  function PartsUpTo(ms: seq<Message>, k: nat): seq<Part>
    requires k <= |ms|
  {
    seq(k, i requires 0 <= i < k => PartAt(ms, i))
  }

  // ---------------------------------------------------------------- grouping

  function Flatten(h: seq<ModelMessage>): seq<Part> {
    if h == [] then [] else Flatten(h[..|h| - 1]) + h[|h| - 1].parts
  }

  predicate HoldsCalls(m: ModelMessage) {
    m.Response? && exists i :: 0 <= i < |m.parts| && m.parts[i].ToolCallPart?
  }

  predicate HoldsReturns(m: ModelMessage) {
    m.Request? && exists i :: 0 <= i < |m.parts| && m.parts[i].ToolReturnPart?
  }

  /** A message is one prompt, one reply, calls only, or returns only. */
  predicate WellShaped(m: ModelMessage) {
    && m.parts != []
    && if m.Request? then
         || (|m.parts| == 1 && m.parts[0].PromptPart?)
         || (forall i :: 0 <= i < |m.parts| ==> m.parts[i].ToolReturnPart?)
       else
         || (|m.parts| == 1 && m.parts[0].ReplyPart?)
         || (forall i :: 0 <= i < |m.parts| ==> m.parts[i].ToolCallPart?)
  }

  /** Not two messages of calls, nor two of returns. */
  predicate Apart(a: ModelMessage, b: ModelMessage) {
    !(HoldsCalls(a) && HoldsCalls(b)) && !(HoldsReturns(a) && HoldsReturns(b))
  }

  /** Adjacent calls share one response and adjacent returns share one request. */
  predicate Grouped(h: seq<ModelMessage>) {
    && (forall i :: 0 <= i < |h| ==> WellShaped(h[i]))
    && (forall i :: 0 < i < |h| ==> Apart(h[i - 1], h[i]))
  }

  /** Add one part, to the last message where parts of its kind are grouped there. */
  function Attach(h: seq<ModelMessage>, p: Part): seq<ModelMessage> {
    var last := |h| - 1;
    match p
    case PromptPart(_) => h + [Request([p])]
    case ReplyPart(_) => h + [Response([p])]
    case ToolCallPart(_, _, _) =>
      if h != [] && HoldsCalls(h[last]) then h[..last] + [Response(h[last].parts + [p])]
      else h + [Response([p])]
    case ToolReturnPart(_, _, _) =>
      if h != [] && HoldsReturns(h[last]) then h[..last] + [Request(h[last].parts + [p])]
      else h + [Request([p])]
  }

  lemma AttachFlattens(h: seq<ModelMessage>, p: Part)
    ensures Flatten(Attach(h, p)) == Flatten(h) + [p]
  {
    var g := Attach(h, p);
    if |g| == |h| {
      assert g[..|g| - 1] == h[..|h| - 1];
    } else {
      assert g[..|g| - 1] == h;
    }
  }

  lemma AttachGroups(h: seq<ModelMessage>, p: Part)
    requires Grouped(h)
    ensures Grouped(Attach(h, p))
  {
    var g := Attach(h, p);
    var last := g[|g| - 1];
    assert last.parts[|last.parts| - 1] == p;
    if |g| == |h| {
      JoinsShaped(h[|h| - 1], last, p);
      ReplaceLast(h, last);
    } else {
      assert WellShaped(last) && (h != [] ==> Apart(h[|h| - 1], last));
      AddLast(h, last);
    }
  }

  lemma ReplaceLast(h: seq<ModelMessage>, m: ModelMessage)
    requires h != [] && Grouped(h) && WellShaped(m)
    requires HoldsCalls(m) == HoldsCalls(h[|h| - 1]) && HoldsReturns(m) == HoldsReturns(h[|h| - 1])
    ensures Grouped(h[..|h| - 1] + [m])
  {
  }

  lemma AddLast(h: seq<ModelMessage>, m: ModelMessage)
    requires Grouped(h) && WellShaped(m) && (h != [] ==> Apart(h[|h| - 1], m))
    ensures Grouped(h + [m])
  {
  }

  /** A part joining a message of its kind leaves the message of that kind. */
  lemma JoinsShaped(before: ModelMessage, after: ModelMessage, p: Part)
    requires WellShaped(before) && after.parts == before.parts + [p]
    requires before.Response? == after.Response?
    requires (HoldsCalls(before) && p.ToolCallPart?) || (HoldsReturns(before) && p.ToolReturnPart?)
    ensures WellShaped(after)
    ensures HoldsCalls(after) <==> HoldsCalls(before)
    ensures HoldsReturns(after) <==> HoldsReturns(before)
  {
    assert after.parts[0] == before.parts[0];
    assert after.parts[|before.parts|] == p;
  }

  /** The loop's state after the first k messages. */
  ghost predicate BuiltUpTo(ms: seq<Message>, k: nat, history: seq<ModelMessage>, cur: Cursor) {
    k <= |ms| && cur == CursorAt(ms, k) && Flatten(history) == PartsUpTo(ms, k) && Grouped(history)
  }

  method AddMessage(ghost ms: seq<Message>, ghost k: nat, m: Message,
                    history: seq<ModelMessage>, counter: nat, pending: seq<Waiting>)
    returns (history': seq<ModelMessage>, counter': nat, pending': seq<Waiting>)
    requires k < |ms| && m == ms[k]
    requires BuiltUpTo(ms, k, history, Cursor(counter, pending))
    ensures BuiltUpTo(ms, k + 1, history', Cursor(counter', pending'))
  {
    counter', pending' := counter, pending;
    var part := PartFor(m, Cursor(counter, pending));
    match m {
      case User(_) =>
      case Assistant(_) =>
      case Call(tool, _, _) =>
        counter' := counter + 1;
        pending' := pending + [Waiting(tool, part.id)];
      case Result(_, _, id) =>
        if Given(id) {
          pending' := Without(pending, id.value);
        } else if pending != [] {
          pending' := pending[1..];
        } else {
          counter' := counter + 1;
        }
    }
    MessageAdded(ms, k, history, Cursor(counter, pending));
    history' := Attach(history, part);
  }

  lemma MessageAdded(ms: seq<Message>, k: nat, history: seq<ModelMessage>, cur: Cursor)
    requires k < |ms| && BuiltUpTo(ms, k, history, cur)
    ensures BuiltUpTo(ms, k + 1, Attach(history, PartFor(ms[k], cur)), Advance(ms[k], cur))
  {
    var part := PartFor(ms[k], cur);
    AttachFlattens(history, part);
    AttachGroups(history, part);
    assert PartsUpTo(ms, k + 1) == PartsUpTo(ms, k) + [PartAt(ms, k)];
  }

  method AddTurn(ghost ms: seq<Message>, ghost start: nat, messages: seq<Message>,
                 history: seq<ModelMessage>, counter: nat, pending: seq<Waiting>)
    returns (history': seq<ModelMessage>, counter': nat, pending': seq<Waiting>)
    requires start + |messages| <= |ms| && ms[start..start + |messages|] == messages
    requires BuiltUpTo(ms, start, history, Cursor(counter, pending))
    ensures BuiltUpTo(ms, start + |messages|, history', Cursor(counter', pending'))
  {
    history', counter', pending' := history, counter, pending;
    var i := 0;
    while i < |messages|
      invariant 0 <= i <= |messages|
      invariant BuiltUpTo(ms, start + i, history', Cursor(counter', pending'))
    {
      assert messages[i] == ms[start + i];
      history', counter', pending' := AddMessage(ms, start + i, messages[i], history', counter', pending');
      i := i + 1;
    }
  }

  /** `_build_message_history` over the turns in order. Grouping is invisible in the parts:
      the history holds one part per message, in order, whatever the grouping. */
  method BuildMessageHistory(turns: seq<seq<Message>>) returns (history: seq<ModelMessage>)
    ensures Flatten(history) == PartsUpTo(Concat(turns), |Concat(turns)|)
    ensures Recovered(Flatten(history)) == WithoutIds(Concat(turns))
    ensures Grouped(history)
  {
    history := [];
    var counter: nat, pending: seq<Waiting> := 0, [];
    ghost var ms, done := Concat(turns), 0;
    var t := 0;
    while t < |turns|
      invariant 0 <= t <= |turns| && 0 <= done <= |ms| && ms[done..] == Concat(turns[t..])
      invariant BuiltUpTo(ms, done, history, Cursor(counter, pending))
    {
      assert turns[t..][1..] == turns[t + 1..];
      assert ms[done..][..|turns[t]|] == turns[t] && ms[done..][|turns[t]|..] == Concat(turns[t + 1..]);
      history, counter, pending := AddTurn(ms, done, turns[t], history, counter, pending);
      done := done + |turns[t]|;
      t := t + 1;
    }
    PartsRecover(ms);
  }

  // ---------------------------------------------------------------- nothing but ids is made up

  /** The message a part came from, its id forgotten. */
  function MessageOf(p: Part): Message {
    match p
    case PromptPart(text) => User(text)
    case ReplyPart(text) => Assistant(text)
    case ToolCallPart(tool, args, _) => Call(tool, args, None)
    case ToolReturnPart(tool, content, _) => Result(tool, content, None)
  }

  function Recovered(parts: seq<Part>): (ms: seq<Message>)
    ensures |ms| == |parts| && forall i :: 0 <= i < |ms| ==> ms[i] == MessageOf(parts[i])
  {
    seq(|parts|, i requires 0 <= i < |parts| => MessageOf(parts[i]))
  }

  function WithoutId(m: Message): Message {
    match m
    case Call(tool, args, _) => Call(tool, args, None)
    case Result(tool, content, _) => Result(tool, content, None)
    case _ => m
  }

  function WithoutIds(ms: seq<Message>): (r: seq<Message>)
    ensures |r| == |ms| && forall i :: 0 <= i < |r| ==> r[i] == WithoutId(ms[i])
  {
    seq(|ms|, i requires 0 <= i < |ms| => WithoutId(ms[i]))
  }

  /** The saved messages can be read back from the parts, ids aside; so a saved turn, which
      has none, is read back as it is. */
  lemma PartsRecover(ms: seq<Message>)
    ensures Recovered(PartsUpTo(ms, |ms|)) == WithoutIds(ms)
    ensures Idless(ms) ==> Recovered(PartsUpTo(ms, |ms|)) == ms
  {
  }

  /** An empty id is none. */
  lemma EmptyIdIsNone(m: Message, cur: Cursor)
    requires (m.Call? || m.Result?) && m.callId == Some("")
    ensures PartFor(m, cur) == PartFor(m.(callId := None), cur)
    ensures Advance(m, cur) == Advance(m.(callId := None), cur)
  {
  }

  /** Any other id that a message brings is kept, and its call no longer waits. */
  lemma GivenIdIsKept(m: Message, cur: Cursor)
    requires (m.Call? || m.Result?) && m.callId.Some? && m.callId.value != ""
    ensures PartFor(m, cur).id == m.callId.value
    ensures m.Call? ==> Advance(m, cur).pending == cur.pending + [Waiting(m.tool, m.callId.value)]
    ensures m.Result? ==> Advance(m, cur).pending == Without(cur.pending, m.callId.value)
  {
  }

  /** The first waiting call of the id is gone, and every other one still waits in order. */
  lemma {:induction false} WithoutDropsFirst(before: seq<Waiting>, w: Waiting, after: seq<Waiting>)
    requires forall i :: 0 <= i < |before| ==> before[i].id != w.id
    ensures Without(before + [w] + after, w.id) == before + after
    decreases |before|
  {
    var all := before + [w] + after;
    if before == [] {
      assert all[1..] == after;
    } else {
      WithoutDropsFirst(before[1..], w, after);
      assert all[1..] == before[1..] + [w] + after;
      assert [before[0]] + (before[1..] + after) == before + after;
    }
  }

  /** An id that no call waits with takes nothing out. */
  lemma {:induction false} WithoutAbsent(pending: seq<Waiting>, id: string)
    requires forall i :: 0 <= i < |pending| ==> pending[i].id != id
    ensures Without(pending, id) == pending
  {
    if pending != [] {
      WithoutAbsent(pending[1..], id);
    }
  }

  /** What a made-up id looks like. */
  lemma MadeUpIds()
    ensures SynthId(Some("ls"), 0) == "call_ls_0" && SynthId(None, 7) == "call_None_7"
  {
  }

  // ---------------------------------------------------------------- counting calls and returns

  /** How many of the first k messages are calls, and how many are results. */
  function CallsIn(ms: seq<Message>, k: nat): nat
    requires k <= |ms|
  {
    if k == 0 then 0 else CallsIn(ms, k - 1) + (if ms[k - 1].Call? then 1 else 0)
  }

  function ResultsIn(ms: seq<Message>, k: nat): nat
    requires k <= |ms|
  {
    if k == 0 then 0 else ResultsIn(ms, k - 1) + (if ms[k - 1].Result? then 1 else 0)
  }

  /** The position of the n-th call among the first k messages. */
  function CallPos(ms: seq<Message>, k: nat, n: nat): (j: nat)
    requires k <= |ms| && n < CallsIn(ms, k)
    ensures j < k && ms[j].Call? && CallsIn(ms, j) == n
  {
    if ms[k - 1].Call? && CallsIn(ms, k - 1) == n then k - 1 else CallPos(ms, k - 1, n)
  }

  lemma {:induction false} CallsGrow(ms: seq<Message>, j: nat, k: nat)
    requires j <= k <= |ms|
    ensures CallsIn(ms, j) <= CallsIn(ms, k) && ResultsIn(ms, j) <= ResultsIn(ms, k)
    decreases k
  {
    if j < k {
      CallsGrow(ms, j, k - 1);
    }
  }

  /** No tool message carries an id of its own, as `_save_turn` leaves them. */
  predicate Idless(ms: seq<Message>) {
    forall i :: 0 <= i < |ms| && (ms[i].Call? || ms[i].Result?) ==> ms[i].callId.None?
  }

  /** At no point have more results been saved than calls. */
  ghost predicate Covered(ms: seq<Message>) {
    forall k :: 0 <= k <= |ms| ==> ResultsIn(ms, k) <= CallsIn(ms, k)
  }

  /** The queue before message k holds exactly the calls from number `returned` on, each
      under its own number. */
  ghost predicate QueueHolds(ms: seq<Message>, k: nat, returned: nat, pending: seq<Waiting>)
    requires k <= |ms|
  {
    && returned + |pending| == CallsIn(ms, k)
    && forall i :: 0 <= i < |pending| ==> HoldsCall(ms, k, returned + i, pending[i])
  }

  ghost predicate HoldsCall(ms: seq<Message>, k: nat, n: nat, x: Waiting)
    requires k <= |ms|
  {
    n < CallsIn(ms, k) && x.id == SynthId(ms[CallPos(ms, k, n)].tool, n)
  }

  /** The running state in closed form: the counter is the number of calls, and the queue
      holds the calls beyond the number of results. */
  ghost predicate CursorIs(ms: seq<Message>, k: nat)
    requires k <= |ms|
  {
    CursorAt(ms, k).counter == CallsIn(ms, k) && QueueHolds(ms, k, ResultsIn(ms, k), CursorAt(ms, k).pending)
  }

  /** Looking further back does not move a call. */
  lemma CallPosStable(ms: seq<Message>, k: nat, n: nat)
    requires k < |ms| && n < CallsIn(ms, k)
    ensures CallPos(ms, k + 1, n) == CallPos(ms, k, n)
  {
  }

  lemma NewCallHeld(ms: seq<Message>, k: nat, x: Waiting)
    requires k < |ms| && ms[k].Call? && x.id == SynthId(ms[k].tool, CallsIn(ms, k))
    ensures HoldsCall(ms, k + 1, CallsIn(ms, k), x)
  {
  }

  lemma QueuePush(ms: seq<Message>, k: nat, returned: nat, pending: seq<Waiting>, x: Waiting)
    requires k < |ms| && ms[k].Call? && QueueHolds(ms, k, returned, pending)
    requires x.id == SynthId(ms[k].tool, CallsIn(ms, k))
    ensures QueueHolds(ms, k + 1, returned, pending + [x])
  {
    var longer := pending + [x];
    NewCallHeld(ms, k, x);
    forall i | 0 <= i < |pending|
      ensures HoldsCall(ms, k + 1, returned + i, longer[i])
    {
      assert HoldsCall(ms, k, returned + i, pending[i]);
      CallPosStable(ms, k, returned + i);
    }
  }

  lemma QueueKeeps(ms: seq<Message>, k: nat, returned: nat, pending: seq<Waiting>)
    requires k < |ms| && !ms[k].Call? && QueueHolds(ms, k, returned, pending)
    ensures QueueHolds(ms, k + 1, returned, pending)
  {
    forall i | 0 <= i < |pending|
      ensures HoldsCall(ms, k + 1, returned + i, pending[i])
    {
      assert HoldsCall(ms, k, returned + i, pending[i]);
      CallPosStable(ms, k, returned + i);
    }
  }

  lemma QueuePop(ms: seq<Message>, k: nat, returned: nat, pending: seq<Waiting>)
    requires k <= |ms| && pending != [] && QueueHolds(ms, k, returned, pending)
    ensures QueueHolds(ms, k, returned + 1, pending[1..])
  {
    var shorter := pending[1..];
    forall i | 0 <= i < |shorter|
      ensures HoldsCall(ms, k, returned + 1 + i, shorter[i])
    {
      assert HoldsCall(ms, k, returned + (i + 1), pending[i + 1]);
    }
  }

  lemma {:induction false} CursorInClosedForm(ms: seq<Message>, k: nat)
    requires k <= |ms| && Idless(ms) && Covered(ms)
    ensures CursorIs(ms, k)
    decreases k
  {
    if k > 0 {
      CursorInClosedForm(ms, k - 1);
      assert ResultsIn(ms, k) <= CallsIn(ms, k);
      CursorStep(ms, k - 1, CursorAt(ms, k - 1));
    }
  }

  lemma CursorStep(ms: seq<Message>, k: nat, cur: Cursor)
    requires k < |ms| && (ms[k].Call? || ms[k].Result? ==> ms[k].callId.None?)
    requires cur.counter == CallsIn(ms, k) && QueueHolds(ms, k, ResultsIn(ms, k), cur.pending)
    requires ResultsIn(ms, k + 1) <= CallsIn(ms, k + 1)
    ensures var next := Advance(ms[k], cur);
      next.counter == CallsIn(ms, k + 1) && QueueHolds(ms, k + 1, ResultsIn(ms, k + 1), next.pending)
  {
    if ms[k].Call? {
      QueuePush(ms, k, ResultsIn(ms, k), cur.pending, Waiting(ms[k].tool, IdFor(ms[k], cur)));
    } else {
      QueueKeeps(ms, k, ResultsIn(ms, k), cur.pending);
      if ms[k].Result? {
        QueuePop(ms, k + 1, ResultsIn(ms, k), cur.pending);
      }
    }
  }

  // ---------------------------------------------------------------- every return has its call

  /** The call a tool return answers. */
  function AnsweredBy(ms: seq<Message>, j: nat): nat
    requires j < |ms| && ms[j].Result? && ResultsIn(ms, j) < CallsIn(ms, j)
  {
    CallPos(ms, j, ResultsIn(ms, j))
  }

  lemma PartIds(ms: seq<Message>, j: nat)
    requires j < |ms| && Idless(ms) && Covered(ms)
    ensures ms[j].Call? ==> PartAt(ms, j).id == SynthId(ms[j].tool, CallsIn(ms, j))
    ensures ms[j].Result? ==>
              && ResultsIn(ms, j) < CallsIn(ms, j)
              && PartAt(ms, j).id == SynthId(ms[AnsweredBy(ms, j)].tool, ResultsIn(ms, j))
              && PartAt(ms, j).id == PartAt(ms, AnsweredBy(ms, j)).id
  {
    CursorInClosedForm(ms, j);
    if ms[j].Result? {
      assert ResultsIn(ms, j + 1) <= CallsIn(ms, j + 1);
      assert HoldsCall(ms, j, ResultsIn(ms, j) + 0, CursorAt(ms, j).pending[0]);
      CursorInClosedForm(ms, AnsweredBy(ms, j));
    }
  }

  lemma IdsDiffer(t: Option<string>, m: nat, u: Option<string>, n: nat)
    requires m != n
    ensures SynthId(t, m) != SynthId(u, n)
  {
    if SynthId(t, m) == SynthId(u, n) {
      NumeralSuffix("call_" + Shown(t), m, "call_" + Shown(u), n);
    }
  }

  /** What a provider demands of ids: a return answers an earlier call, distinct calls differ,
      and no call is answered twice. A call may stay unanswered. */
  ghost predicate Answerable(parts: seq<Part>) {
    && (forall i, j :: 0 <= i < j < |parts| && parts[i].ToolCallPart? && parts[j].ToolCallPart? ==>
          parts[i].id != parts[j].id)
    && (forall i, j :: 0 <= i < j < |parts| && parts[i].ToolReturnPart? && parts[j].ToolReturnPart? ==>
          parts[i].id != parts[j].id)
    && (forall j :: 0 <= j < |parts| && parts[j].ToolReturnPart? ==>
          exists i :: 0 <= i < j && parts[i].ToolCallPart? && parts[i].id == parts[j].id)
  }

  lemma CallsDistinct(ms: seq<Message>, i: nat, j: nat)
    requires Idless(ms) && Covered(ms) && i < j < |ms| && ms[i].Call? && ms[j].Call?
    ensures PartAt(ms, i).id != PartAt(ms, j).id
  {
    PartIds(ms, i);
    PartIds(ms, j);
    CallsGrow(ms, i + 1, j);
    IdsDiffer(ms[i].tool, CallsIn(ms, i), ms[j].tool, CallsIn(ms, j));
  }

  lemma ReturnsDistinct(ms: seq<Message>, i: nat, j: nat)
    requires Idless(ms) && Covered(ms) && i < j < |ms| && ms[i].Result? && ms[j].Result?
    ensures PartAt(ms, i).id != PartAt(ms, j).id
  {
    PartIds(ms, i);
    PartIds(ms, j);
    CallsGrow(ms, i + 1, j);
    IdsDiffer(ms[AnsweredBy(ms, i)].tool, ResultsIn(ms, i), ms[AnsweredBy(ms, j)].tool, ResultsIn(ms, j));
  }

  lemma CoveredIsAnswerable(ms: seq<Message>)
    requires Idless(ms) && Covered(ms)
    ensures Answerable(PartsUpTo(ms, |ms|))
  {
    var parts := PartsUpTo(ms, |ms|);
    forall i, j | 0 <= i < j < |parts|
      ensures parts[i].ToolCallPart? && parts[j].ToolCallPart? ==> parts[i].id != parts[j].id
      ensures parts[i].ToolReturnPart? && parts[j].ToolReturnPart? ==> parts[i].id != parts[j].id
    {
      if ms[i].Call? && ms[j].Call? {
        CallsDistinct(ms, i, j);
      } else if ms[i].Result? && ms[j].Result? {
        ReturnsDistinct(ms, i, j);
      }
    }
    forall j | 0 <= j < |parts| && parts[j].ToolReturnPart?
      ensures exists i :: 0 <= i < j && parts[i].ToolCallPart? && parts[i].id == parts[j].id
    {
      PartIds(ms, j);
      var i := AnsweredBy(ms, j);
      assert parts[i] == PartAt(ms, i);
    }
  }

  // ---------------------------------------------------------------- saved turns are covered

  lemma {:induction false} CountsOfConcat(a: seq<Message>, b: seq<Message>, k: nat)
    requires k <= |a + b|
    ensures CallsIn(a + b, k) ==
            if k <= |a| then CallsIn(a, k) else CallsIn(a, |a|) + CallsIn(b, k - |a|)
    ensures ResultsIn(a + b, k) ==
            if k <= |a| then ResultsIn(a, k) else ResultsIn(a, |a|) + ResultsIn(b, k - |a|)
    decreases k
  {
    if k > 0 {
      CountsOfConcat(a, b, k - 1);
    }
  }

  lemma CoveredConcat(a: seq<Message>, b: seq<Message>)
    requires Covered(a) && Covered(b)
    ensures Covered(a + b)
  {
    forall k | 0 <= k <= |a + b|
      ensures ResultsIn(a + b, k) <= CallsIn(a + b, k)
    {
      CountsOfConcat(a, b, k);
      assert ResultsIn(a, |a|) <= CallsIn(a, |a|);
    }
  }

  /** The entries that are not None. */
  function Somes(names: seq<Option<string>>): (s: seq<Option<string>>)
    ensures |s| <= |names|
  {
    if names == [] then []
    else if names[0].Some? then [names[0]] + Somes(names[1..])
    else Somes(names[1..])
  }

  lemma {:induction false} SomesOfConcat(a: seq<Option<string>>, b: seq<Option<string>>)
    ensures Somes(a + b) == Somes(a) + Somes(b)
  {
    if a == [] {
      assert a + b == b;
    } else {
      assert (a + b)[1..] == a[1..] + b;
      SomesOfConcat(a[1..], b);
    }
  }

  /** One event writes no more results than it takes names from the queue. */
  lemma EmitCounts(c: Codec, e: Event, pending: seq<Option<string>>)
    ensures var first := Emit(c, e, pending);
      && |first| <= 1
      && ResultsIn(first, |first|) + |Somes(Enqueue(c, e, pending))| <= CallsIn(first, |first|) + |Somes(pending)|
  {
    var first, next := Emit(c, e, pending), Enqueue(c, e, pending);
    assert first != [] ==> CallsIn(first, 0) == 0 && ResultsIn(first, 0) == 0;
    if e.ToolCall? {
      var last := next[|pending|..];
      assert next == pending + last;
      SomesOfConcat(pending, last);
    }
  }

  /** Saving never writes more results than it has queued or written calls. */
  lemma {:induction false} SavedCovered(c: Codec, events: seq<Event>, pending: seq<Option<string>>, k: nat)
    requires k <= |SaveEvents(c, events, pending)|
    ensures var ms := SaveEvents(c, events, pending);
      ResultsIn(ms, k) <= CallsIn(ms, k) + |Somes(pending)|
    decreases |events|
  {
    if events != [] && k > 0 {
      var first, next := Emit(c, events[0], pending), Enqueue(c, events[0], pending);
      EmitCounts(c, events[0], pending);
      SavedCovered(c, events[1..], next, k - |first|);
      CountsOfConcat(first, SaveEvents(c, events[1..], next), k);
    }
  }

  lemma {:induction false} SavedIdless(c: Codec, events: seq<Event>, pending: seq<Option<string>>)
    ensures Idless(SaveEvents(c, events, pending))
    decreases |events|
  {
    if events != [] {
      SavedIdless(c, events[1..], Enqueue(c, events[0], pending));
    }
  }

  predicate Silent(ms: seq<Message>) {
    forall i :: 0 <= i < |ms| ==> !ms[i].Call? && !ms[i].Result?
  }

  lemma {:induction false} SilentCounts(ms: seq<Message>, k: nat)
    requires k <= |ms| && Silent(ms)
    ensures CallsIn(ms, k) == 0 && ResultsIn(ms, k) == 0
  {
    if k > 0 {
      SilentCounts(ms, k - 1);
    }
  }

  lemma SilentCovered(ms: seq<Message>)
    requires Silent(ms)
    ensures Covered(ms)
  {
    forall k | 0 <= k <= |ms| {
      SilentCounts(ms, k);
    }
  }

  lemma TurnCovered(c: Codec, t: Turn)
    ensures Covered(SaveTurn(c, t)) && Idless(SaveTurn(c, t))
  {
    var middle := SaveEvents(c, t.events, []);
    var tail := if t.output.Some? then [Assistant(t.output.value)] else [];
    forall k | 0 <= k <= |middle|
      ensures ResultsIn(middle, k) <= CallsIn(middle, k)
    {
      SavedCovered(c, t.events, [], k);
    }
    SavedIdless(c, t.events, []);
    SilentCovered([User(t.prompt)]);
    SilentCovered(tail);
    CoveredConcat([User(t.prompt)], middle);
    CoveredConcat([User(t.prompt)] + middle, tail);
  }

  function Saved(c: Codec, turns: seq<Turn>): seq<Message> {
    if turns == [] then [] else SaveTurn(c, turns[0]) + Saved(c, turns[1..])
  }

  lemma {:induction false} AllCovered(c: Codec, turns: seq<Turn>)
    ensures Covered(Saved(c, turns)) && Idless(Saved(c, turns))
  {
    if turns != [] {
      TurnCovered(c, turns[0]);
      AllCovered(c, turns[1..]);
      CoveredConcat(SaveTurn(c, turns[0]), Saved(c, turns[1..]));
    }
  }

  /** For every sequence of turns with arbitrary transcript events, the rebuilt history gives
      every tool return the id of an earlier call, gives distinct calls distinct ids, and
      answers no call twice. */
  lemma HistoryIsAnswerable(c: Codec, turns: seq<Turn>)
    ensures var ms := Saved(c, turns); Answerable(PartsUpTo(ms, |ms|))
  {
    AllCovered(c, turns);
    CoveredIsAnswerable(Saved(c, turns));
  }

  // ---------------------------------------------------------------- returns carry their call's name

  function CallTools(ms: seq<Message>): seq<Option<string>> {
    if ms == [] then [] else CallTools(ms[..|ms| - 1]) + (if ms[|ms| - 1].Call? then [ms[|ms| - 1].tool] else [])
  }

  function ResultTools(ms: seq<Message>): seq<Option<string>> {
    if ms == [] then [] else ResultTools(ms[..|ms| - 1]) + (if ms[|ms| - 1].Result? then [ms[|ms| - 1].tool] else [])
  }

  lemma {:induction false} ToolsOfConcat(a: seq<Message>, b: seq<Message>)
    ensures CallTools(a + b) == CallTools(a) + CallTools(b)
    ensures ResultTools(a + b) == ResultTools(a) + ResultTools(b)
    decreases |b|
  {
    if b == [] {
      assert a + b == a;
    } else {
      assert (a + b)[..|a + b| - 1] == a + b[..|b| - 1];
      ToolsOfConcat(a, b[..|b| - 1]);
    }
  }

  /** The lists and the counts tell the same story. */
  lemma {:induction false} ToolAt(ms: seq<Message>, k: nat, i: nat)
    requires i <= k <= |ms|
    ensures |CallTools(ms[..k])| == CallsIn(ms, k) && |ResultTools(ms[..k])| == ResultsIn(ms, k)
    ensures i < k && ms[i].Call? ==> CallsIn(ms, i) < CallsIn(ms, k) && CallTools(ms[..k])[CallsIn(ms, i)] == ms[i].tool
    ensures i < k && ms[i].Result? ==>
              ResultsIn(ms, i) < ResultsIn(ms, k) && ResultTools(ms[..k])[ResultsIn(ms, i)] == ms[i].tool
    decreases k
  {
    if k > 0 {
      assert ms[..k][..k - 1] == ms[..k - 1];
      ToolAt(ms, k - 1, if i < k then i else k - 1);
    }
  }

  /** Every kept call has a name. */
  predicate AllNamed(ms: seq<Message>) {
    Somes(CallTools(ms)) == CallTools(ms)
  }

  /** Every kept call of these messages has its result among them. */
  predicate Answered(ms: seq<Message>) {
    |CallTools(ms)| == |ResultTools(ms)|
  }

  function FinalQueue(c: Codec, events: seq<Event>, pending: seq<Option<string>>): seq<Option<string>> {
    if events == [] then pending else FinalQueue(c, events[1..], Enqueue(c, events[0], pending))
  }

  /** One event conserves names: what was queued and is newly called is either returned or
      still queued, in the same order. */
  lemma EmitConserves(c: Codec, e: Event, pending: seq<Option<string>>)
    ensures var first := Emit(c, e, pending);
      ResultTools(first) + Somes(Enqueue(c, e, pending)) == Somes(pending) + Somes(CallTools(first))
  {
    var first := Emit(c, e, pending);
    assert first != [] ==> first[..|first| - 1] == [];
    if e.ToolCall? {
      var last := Enqueue(c, e, pending)[|pending|..];
      assert Enqueue(c, e, pending) == pending + last;
      SomesOfConcat(pending, last);
    }
  }

  /** Conservation over a whole turn: returned names, then names still queued, are the names
      queued at first, then the names of the calls. */
  lemma {:induction false} SavedConserves(c: Codec, events: seq<Event>, pending: seq<Option<string>>)
    ensures var ms := SaveEvents(c, events, pending);
      ResultTools(ms) + Somes(FinalQueue(c, events, pending)) == Somes(pending) + Somes(CallTools(ms))
    decreases |events|
  {
    if events != [] {
      var first, next := Emit(c, events[0], pending), Enqueue(c, events[0], pending);
      var rest := SaveEvents(c, events[1..], next);
      EmitConserves(c, events[0], pending);
      SavedConserves(c, events[1..], next);
      ToolsOfConcat(first, rest);
      SomesOfConcat(CallTools(first), CallTools(rest));
      Rearrange(ResultTools(first), ResultTools(rest), Somes(FinalQueue(c, events[1..], next)), Somes(next),
                Somes(CallTools(rest)), Somes(pending), Somes(CallTools(first)));
    }
  }

  lemma Rearrange<T>(r1: seq<T>, r2: seq<T>, q: seq<T>, n: seq<T>, c2: seq<T>, p: seq<T>, c1: seq<T>)
    requires r1 + n == p + c1 && r2 + q == n + c2
    ensures (r1 + r2) + q == p + (c1 + c2)
  {
    assert (r1 + r2) + q == r1 + (r2 + q);
    assert r1 + (n + c2) == (r1 + n) + c2;
    assert (p + c1) + c2 == p + (c1 + c2);
  }

  lemma SilentTools(ms: seq<Message>)
    requires Silent(ms) && |ms| <= 1
    ensures CallTools(ms) == [] && ResultTools(ms) == []
  {
    assert ms != [] ==> ms[..|ms| - 1] == [];
  }

  lemma TurnTools(c: Codec, t: Turn)
    ensures CallTools(SaveTurn(c, t)) == CallTools(SaveEvents(c, t.events, []))
    ensures ResultTools(SaveTurn(c, t)) == ResultTools(SaveEvents(c, t.events, []))
  {
    var tail := if t.output.Some? then [Assistant(t.output.value)] else [];
    ToolsBetween([User(t.prompt)], SaveEvents(c, t.events, []), tail);
  }

  lemma ToolsBetween(head: seq<Message>, middle: seq<Message>, tail: seq<Message>)
    requires Silent(head) && |head| <= 1 && Silent(tail) && |tail| <= 1
    ensures CallTools(head + middle + tail) == CallTools(middle)
    ensures ResultTools(head + middle + tail) == ResultTools(middle)
  {
    SilentTools(head);
    SilentTools(tail);
    ToolsOfConcat(head, middle);
    ToolsOfConcat(head + middle, tail);
  }

  lemma {:induction false} SomesFull(names: seq<Option<string>>)
    requires |Somes(names)| == |names|
    ensures Somes(names) == names
  {
    if names != [] {
      SomesFull(names[1..]);
    }
  }

  /** Inside a turn the results' names are those of the first calls, in call order; a turn
      that answers all its kept calls has named them. */
  lemma TurnInOrder(c: Codec, t: Turn)
    requires Answered(SaveTurn(c, t)) || AllNamed(SaveTurn(c, t))
    ensures ResultTools(SaveTurn(c, t)) <= CallTools(SaveTurn(c, t))
  {
    var ms := SaveEvents(c, t.events, []);
    TurnTools(c, t);
    SavedConserves(c, t.events, []);
    assert ResultTools(ms) + Somes(FinalQueue(c, t.events, [])) == Somes(CallTools(ms));
    if Answered(SaveTurn(c, t)) {
      SomesFull(CallTools(ms));
    }
  }

  /** Every turn answers all its kept calls; the last one need only name them. */
  ghost predicate TurnsAnswer(c: Codec, turns: seq<Turn>) {
    forall i :: 0 <= i < |turns| ==>
      || Answered(SaveTurn(c, turns[i]))
      || (i == |turns| - 1 && AllNamed(SaveTurn(c, turns[i])))
  }

  lemma {:induction false} ToolsInOrder(c: Codec, turns: seq<Turn>)
    requires TurnsAnswer(c, turns)
    ensures ResultTools(Saved(c, turns)) <= CallTools(Saved(c, turns))
  {
    if turns != [] {
      var first, rest := SaveTurn(c, turns[0]), turns[1..];
      TurnInOrder(c, turns[0]);
      assert TurnsAnswer(c, rest) by {
        assert forall i :: 0 <= i < |rest| ==> rest[i] == turns[i + 1];
      }
      ToolsInOrder(c, rest);
      ToolsOfConcat(first, Saved(c, rest));
      if rest == [] {
        assert Saved(c, rest) == [];
      } else {
        assert ResultTools(first) == CallTools(first);
      }
    }
  }

  /** Return j carries the tool name of the call whose id it has. */
  predicate NameMatches(ms: seq<Message>, j: nat)
    requires j < |ms| && ms[j].Result?
  {
    && ResultsIn(ms, j) < CallsIn(ms, j)
    && PartAt(ms, j).id == PartAt(ms, AnsweredBy(ms, j)).id
    && PartAt(ms, j).tool == PartAt(ms, AnsweredBy(ms, j)).tool
  }

  ghost predicate NamesMatch(ms: seq<Message>) {
    forall j :: 0 <= j < |ms| && ms[j].Result? ==> NameMatches(ms, j)
  }

  /** The position of the n-th result among the first k messages. */
  function ResultPos(ms: seq<Message>, k: nat, n: nat): (j: nat)
    requires k <= |ms| && n < ResultsIn(ms, k)
    ensures j < k && ms[j].Result? && ResultsIn(ms, j) == n
  {
    if ms[k - 1].Result? && ResultsIn(ms, k - 1) == n then k - 1 else ResultPos(ms, k - 1, n)
  }

  /** Return j's name and its call's name stand at the same place in the two lists. */
  lemma NamesAt(ms: seq<Message>, j: nat)
    requires Idless(ms) && Covered(ms) && j < |ms| && ms[j].Result?
    ensures var n := ResultsIn(ms, j);
      && n < |ResultTools(ms)| && n < |CallTools(ms)|
      && (NameMatches(ms, j) <==> ResultTools(ms)[n] == CallTools(ms)[n])
  {
    PartIds(ms, j);
    var i := AnsweredBy(ms, j);
    assert ms[..|ms|] == ms;
    ToolAt(ms, |ms|, i);
    ToolAt(ms, |ms|, j);
  }

  lemma ToolCounts(ms: seq<Message>)
    requires Covered(ms)
    ensures |ResultTools(ms)| == ResultsIn(ms, |ms|) <= CallsIn(ms, |ms|) == |CallTools(ms)|
  {
    assert ms[..|ms|] == ms;
    ToolAt(ms, |ms|, |ms|);
  }

  lemma NameAt(ms: seq<Message>, n: nat)
    requires Idless(ms) && Covered(ms) && NamesMatch(ms) && n < ResultsIn(ms, |ms|)
    ensures n < |ResultTools(ms)| && n < |CallTools(ms)| && ResultTools(ms)[n] == CallTools(ms)[n]
  {
    var j := ResultPos(ms, |ms|, n);
    NamesAt(ms, j);
  }

  /** Every return carries its call's name if and only if the names of the results are, in
      order, the names of the first calls. */
  lemma NamesMatchIff(ms: seq<Message>)
    requires Idless(ms) && Covered(ms)
    ensures NamesMatch(ms) <==> ResultTools(ms) <= CallTools(ms)
  {
    var results, calls := ResultTools(ms), CallTools(ms);
    ToolCounts(ms);
    if NamesMatch(ms) {
      forall n | 0 <= n < |results|
        ensures results[n] == calls[n]
      {
        NameAt(ms, n);
      }
    } else if results <= calls {
      forall j | 0 <= j < |ms| && ms[j].Result?
        ensures NameMatches(ms, j)
      {
        NamesAt(ms, j);
        assert results[ResultsIn(ms, j)] == calls[ResultsIn(ms, j)];
      }
    }
  }

  /** For every conversation: each return in the history also carries the tool name of the call
      whose id it has if and only if the saved results are named like the first saved calls. */
  lemma ConversationNamesIff(c: Codec, turns: seq<Turn>)
    ensures NamesMatch(Saved(c, turns)) <==> ResultTools(Saved(c, turns)) <= CallTools(Saved(c, turns))
  {
    AllCovered(c, turns);
    NamesMatchIff(Saved(c, turns));
  }

  /** So they do if every turn answers all its kept calls (the last need only name them). */
  lemma ReturnsCarryTheirCallsName(c: Codec, turns: seq<Turn>)
    requires TurnsAnswer(c, turns)
    ensures NamesMatch(Saved(c, turns))
  {
    ToolsInOrder(c, turns);
    ConversationNamesIff(c, turns);
  }

  /** A turn that leaves a call unanswered hands its id to the next turn's result: the id
      still belongs to an earlier call, but the name is another tool's. */
  lemma UnansweredCallTakesNextResult(c: Codec)
    ensures var args := Obj(map[]);
      var turns := [Turn("x", [ToolCall(Some("a"), args)], None),
                    Turn("y", [ToolCall(Some("b"), args), ToolResult(Null)], None)];
      var ms := Saved(c, turns);
      && |ms| == 5 && PartAt(ms, 4).ToolReturnPart? && PartAt(ms, 1).ToolCallPart?
      && PartAt(ms, 4).id == PartAt(ms, 1).id
      && PartAt(ms, 4).tool == Some("b") && PartAt(ms, 1).tool == Some("a")
  {
    var args := Obj(map[]);
    var t1 := Turn("x", [ToolCall(Some("a"), args)], None);
    var t2 := Turn("y", [ToolCall(Some("b"), args), ToolResult(Null)], None);
    var a, b := Call(Some("a"), args, None), Call(Some("b"), args, None);
    var r := Result(Some("b"), ContentOf(c, Null), None);
    TwoTurns(c, t1, t2, a, b, r);
    AllCovered(c, [t1, t2]);
    FiveMessages(Saved(c, [t1, t2]), a, b, r);
  }

  lemma FiveMessages(ms: seq<Message>, a: Message, b: Message, r: Message)
    requires ms == [User("x"), a] + [User("y"), b, r] && Covered(ms) && Idless(ms)
    requires a.Call? && b.Call? && r.Result?
    ensures PartAt(ms, 4).id == PartAt(ms, 1).id
  {
    PartIds(ms, 4);
    assert CallsIn(ms, 1) == 0 && CallsIn(ms, 2) == 1 && CallsIn(ms, 3) == 1 && CallsIn(ms, 4) == 2;
    assert ResultsIn(ms, 1) == 0 && ResultsIn(ms, 2) == 0 && ResultsIn(ms, 3) == 0 && ResultsIn(ms, 4) == 0;
  }

  lemma TwoTurns(c: Codec, t1: Turn, t2: Turn, a: Message, b: Message, r: Message)
    requires t1 == Turn("x", [ToolCall(Some("a"), Obj(map[]))], None)
    requires t2 == Turn("y", [ToolCall(Some("b"), Obj(map[])), ToolResult(Null)], None)
    requires a == Call(Some("a"), Obj(map[]), None) && b == Call(Some("b"), Obj(map[]), None)
    requires r == Result(Some("b"), ContentOf(c, Null), None)
    ensures Saved(c, [t1, t2]) == [User("x"), a] + [User("y"), b, r]
  {
    SavedCall(c, "a", []);
    assert SaveEvents(c, [], [Some("a")]) == [];
    SavedCall(c, "b", [ToolResult(Null)]);
    SavedResult(c, "b");
    assert t2.events == [ToolCall(Some("b"), Obj(map[]))] + [ToolResult(Null)];
    assert t1.events == [ToolCall(Some("a"), Obj(map[]))] + [];
    assert SaveTurn(c, t1) == [User("x"), a] && SaveTurn(c, t2) == [User("y"), b, r];
    assert [t1, t2][1..] == [t2] && [t2][1..] == [];
    assert Saved(c, [t2]) == SaveTurn(c, t2) + [];
  }

  lemma SavedCall(c: Codec, name: string, rest: seq<Event>)
    ensures var call := ToolCall(Some(name), Obj(map[]));
      SaveEvents(c, [call] + rest, []) == [Call(Some(name), Obj(map[]), None)] + SaveEvents(c, rest, [Some(name)])
  {
    var call := ToolCall(Some(name), Obj(map[]));
    assert ([call] + rest)[1..] == rest;
    assert Enqueue(c, call, []) == [Some(name)];
  }

  lemma SavedResult(c: Codec, name: string)
    ensures SaveEvents(c, [ToolResult(Null)], [Some(name)]) == [Result(Some(name), ContentOf(c, Null), None)]
  {
    assert [ToolResult(Null)][1..] == [] && [Some(name)][1..] == [];
    assert SaveEvents(c, [], []) == [];
  }

  // ---------------------------------------------------------------- arguments survive the whole way

  /** One run of an agent as a chat turn sees it. */
  datatype Run = Run(prompt: string, parts: seq<RunPart>, output: Option<string>)

  function TurnsOf(c: Codec, blank: string -> bool, runs: seq<Run>): seq<Turn> {
    if runs == [] then []
    else [Turn(runs[0].prompt, Transcript(c, blank, runs[0].parts), runs[0].output)] + TurnsOf(c, blank, runs[1..])
  }

  function AllSurviving(c: Codec, runs: seq<Run>): seq<Message> {
    if runs == [] then [] else SurvivingCalls(c, runs[0].parts) + AllSurviving(c, runs[1..])
  }

  /** From the runs' parts through events and saved messages, the calls that reach the
      history are exactly the surviving ones, in order, with their original arguments. */
  lemma {:induction false} ReplayedCallsAreOriginal(c: Codec, blank: string -> bool, runs: seq<Run>)
    requires Faithful(c)
    ensures Calls(Saved(c, TurnsOf(c, blank, runs))) == AllSurviving(c, runs)
  {
    if runs != [] {
      var turns := TurnsOf(c, blank, runs);
      assert turns[1..] == TurnsOf(c, blank, runs[1..]);
      TurnCalls(c, turns[0]);
      SavedCallsAreOriginal(c, blank, runs[0].parts, []);
      CallsOfConcat(SaveTurn(c, turns[0]), Saved(c, turns[1..]));
      ReplayedCallsAreOriginal(c, blank, runs[1..]);
    }
  }

  lemma TurnCalls(c: Codec, t: Turn)
    ensures Calls(SaveTurn(c, t)) == Calls(SaveEvents(c, t.events, []))
  {
    var head, middle := [User(t.prompt)], SaveEvents(c, t.events, []);
    var tail := if t.output.Some? then [Assistant(t.output.value)] else [];
    CallsOfConcat(head, middle);
    CallsOfConcat(head + middle, tail);
    assert head[1..] == [] && (tail != [] ==> tail[1..] == []);
  }

  lemma {:induction false} CallsHold(ms: seq<Message>, j: nat)
    requires j < |ms| && ms[j].Call?
    ensures ms[j] in Calls(ms)
  {
    if j > 0 {
      CallsHold(ms[1..], j - 1);
    }
  }

  /** Every tool call in the rebuilt history carries the original arguments of a call some
      run made, never a text that was cut. */
  lemma NoCutArgumentsReplayed(c: Codec, blank: string -> bool, runs: seq<Run>, j: nat)
    requires Faithful(c)
    requires var ms := Saved(c, TurnsOf(c, blank, runs)); j < |ms| && PartAt(ms, j).ToolCallPart?
    ensures var p := PartAt(Saved(c, TurnsOf(c, blank, runs)), j);
      Call(p.tool, p.args, None) in AllSurviving(c, runs)
  {
    var turns := TurnsOf(c, blank, runs);
    AllCovered(c, turns);
    CallsHold(Saved(c, turns), j);
    ReplayedCallsAreOriginal(c, blank, runs);
  }
}
