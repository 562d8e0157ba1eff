/**
 Turn names as keys. A turn's name is derived from the window of recent turns that also
 serves as its context, and is the key under which the turn is upserted; the history
 sorts turns by the number in their name.
 */
module ChatNames {
  import opened Prelude
  import opened Json
  import opened Decimal
  import opened ChatTurns
  import opened ChatHistory

  /** A row of the transcript table for one workflow, rows in order of creation. */
  datatype TurnRow = TurnRow(name: string, messages: Option<seq<Message>>)

  /** How turns are named, and how a turn's number is read back from a name. */
  datatype Naming = Naming(name: nat -> string, number: string -> Option<int>)

  ghost predicate Faithful(nm: Naming) {
    forall n: nat :: nm.number(nm.name(n)) == Some(n)
  }

  const PREFIX := "turn-"

  /** "turn-" and a numeral; read back through Python's int() on what follows the dash. */
  function TurnNaming(read: string -> Option<int>): Naming {
    Naming((n: nat) => PREFIX + Dec(n), (s: string) => if PREFIX <= s then read(s[|PREFIX|..]) else None)
  }

  /** Names are faithful as soon as int() reads numerals. */
  lemma TurnNamingIsFaithful(read: string -> Option<int>)
    requires forall n: nat :: read(Dec(n)) == Some(n)
    ensures Faithful(TurnNaming(read)) && forall n: nat :: TurnNaming(read).name(n) == "turn-" + Dec(n)
  {
    forall n: nat
      ensures TurnNaming(read).number(TurnNaming(read).name(n)) == Some(n)
    {
      assert (PREFIX + Dec(n))[|PREFIX|..] == Dec(n);
    }
  }

  lemma NamesDiffer(nm: Naming, m: nat, n: nat)
    requires Faithful(nm) && m != n
    ensures nm.name(m) != nm.name(n)
  {
    assert nm.number(nm.name(m)) == Some(m) && nm.number(nm.name(n)) == Some(n);
  }

  // ---------------------------------------------------------------- the store

  /** INSERT ... ON CONFLICT DO UPDATE: an existing row keeps its place. */
  function Upsert(rows: seq<TurnRow>, name: string, messages: Option<seq<Message>>): seq<TurnRow> {
    if rows == [] then [TurnRow(name, messages)]
    else if rows[0].name == name then
      [TurnRow(name, if messages.Some? then messages else rows[0].messages)] + rows[1..]
    else [rows[0]] + Upsert(rows[1..], name, messages)
  }

  lemma {:induction false} UpsertNew(rows: seq<TurnRow>, name: string, messages: Option<seq<Message>>)
    requires forall j :: 0 <= j < |rows| ==> rows[j].name != name
    ensures Upsert(rows, name, messages) == rows + [TurnRow(name, messages)]
  {
    if rows != [] {
      UpsertNew(rows[1..], name, messages);
    }
  }

  lemma {:induction false} UpsertAt(rows: seq<TurnRow>, name: string, messages: Option<seq<Message>>, i: nat)
    requires i < |rows| && rows[i].name == name
    requires forall j :: 0 <= j < i ==> rows[j].name != name
    ensures Upsert(rows, name, messages) ==
            rows[i := TurnRow(name, if messages.Some? then messages else rows[i].messages)]
  {
    if i > 0 {
      UpsertAt(rows[1..], name, messages, i - 1);
    }
  }

  function WithMessages(rows: seq<TurnRow>): seq<TurnRow> {
    if rows == [] then []
    else WithMessages(rows[..|rows| - 1]) + (if rows[|rows| - 1].messages.Some? then [rows[|rows| - 1]] else [])
  }

  /** The newest `limit` turns, oldest first. */
  function Recent(rows: seq<TurnRow>, limit: nat): seq<TurnRow> {
    var turns := WithMessages(rows);
    if |turns| <= limit then turns else turns[|turns| - limit..]
  }

  class TranscriptStore {
    var rows: seq<TurnRow>

    constructor ()
      ensures rows == []
    {
      rows := [];
    }

    method Save(name: string, messages: Option<seq<Message>>)
      modifies this
      ensures rows == Upsert(old(rows), name, messages)
    {
      var i := 0;
      while i < |rows| && rows[i].name != name
        invariant 0 <= i <= |rows| && rows == old(rows)
        invariant forall j :: 0 <= j < i ==> rows[j].name != name
      {
        i := i + 1;
      }
      if i < |rows| {
        UpsertAt(rows, name, messages, i);
        rows := rows[i := TurnRow(name, if messages.Some? then messages else rows[i].messages)];
      } else {
        UpsertNew(rows, name, messages);
        rows := rows + [TurnRow(name, messages)];
      }
    }

    /** The query walks the rows newest first, and the loop turns its answer around. */
    method LoadRecentTurns(limit: nat) returns (turns: seq<TurnRow>)
      ensures turns == Recent(rows, limit)
    {
      turns := [];
      var i := |rows|;
      assert rows[..i] == rows;
      while i > 0 && |turns| < limit
        invariant 0 <= i <= |rows| && |turns| <= limit
        invariant WithMessages(rows) == WithMessages(rows[..i]) + turns
        decreases i
      {
        i := i - 1;
        assert rows[..i + 1][..i] == rows[..i];
        if rows[i].messages.Some? {
          turns := [rows[i]] + turns;
        }
      }
      assert |turns| == limit ==> WithMessages(rows)[|WithMessages(rows)| - limit..] == turns;
    }
  }

  // ---------------------------------------------------------------- naming the next turn

  /** One more than the highest turn number among the given turns, or 0. */
  function NextNumber(nm: Naming, turns: seq<TurnRow>): (n: nat) {
    if turns == [] then 0
    else
      var before := NextNumber(nm, turns[..|turns| - 1]);
      var x := nm.number(turns[|turns| - 1].name);
      if x.Some? && x.value >= before then x.value + 1 else before
  }

  method NextTurnNumber(nm: Naming, turns: seq<TurnRow>) returns (n: nat)
    ensures n == NextNumber(nm, turns)
  {
    var maxNum := -1;
    var i := 0;
    while i < |turns|
      invariant 0 <= i <= |turns| && maxNum + 1 == NextNumber(nm, turns[..i])
    {
      assert turns[..i + 1][..i] == turns[..i];
      var x := nm.number(turns[i].name);
      if x.Some? && x.value > maxNum {
        maxNum := x.value;
      }
      i := i + 1;
    }
    assert turns[..|turns|] == turns;
    n := maxNum + 1;
  }

  /** One message: load the window, name the turn from it, save it under that name. */
  function Send(nm: Naming, limit: nat, rows: seq<TurnRow>, messages: seq<Message>): seq<TurnRow> {
    Upsert(rows, nm.name(NextNumber(nm, Recent(rows, limit))), Some(messages))
  }

  method SendMessage(nm: Naming, limit: nat, store: TranscriptStore, c: Codec, t: Turn)
    modifies store
    ensures store.rows == Send(nm, limit, old(store.rows), SaveTurn(c, t))
  {
    var prior := store.LoadRecentTurns(limit);
    var n := NextTurnNumber(nm, prior);
    var messages := BuildTurnMessages(c, t);
    store.Save(nm.name(n), Some(messages));
  }

  function SendAll(nm: Naming, limit: nat, saved: seq<seq<Message>>): seq<TurnRow> {
    if saved == [] then []
    else Send(nm, limit, SendAll(nm, limit, saved[..|saved| - 1]), saved[|saved| - 1])
  }

  /** The n-th turn under the name turn-(n-1). */
  function Numbered(nm: Naming, saved: seq<seq<Message>>): seq<TurnRow> {
    seq(|saved|, i requires 0 <= i < |saved| => TurnRow(nm.name(i), Some(saved[i])))
  }

  lemma {:induction false} NumberedHaveMessages(nm: Naming, saved: seq<seq<Message>>, k: nat)
    requires k <= |saved|
    ensures WithMessages(Numbered(nm, saved)[..k]) == Numbered(nm, saved)[..k]
  {
    if k > 0 {
      assert Numbered(nm, saved)[..k][..k - 1] == Numbered(nm, saved)[..k - 1];
      NumberedHaveMessages(nm, saved, k - 1);
    }
  }

  /** Any nonempty suffix of the numbered turns names the next one. */
  lemma {:induction false} SuffixNamesNext(nm: Naming, saved: seq<seq<Message>>, i: nat, k: nat)
    requires Faithful(nm) && i < k <= |saved|
    ensures NextNumber(nm, Numbered(nm, saved)[i..k]) == k
    decreases k
  {
    var turns := Numbered(nm, saved)[i..k];
    assert turns[|turns| - 1].name == nm.name(k - 1) && turns[..|turns| - 1] == Numbered(nm, saved)[i..k - 1];
    if i < k - 1 {
      SuffixNamesNext(nm, saved, i, k - 1);
    }
  }

  lemma NewName(nm: Naming, saved: seq<seq<Message>>)
    requires Faithful(nm)
    ensures forall i :: 0 <= i < |saved| ==> Numbered(nm, saved)[i].name != nm.name(|saved|)
  {
    forall i | 0 <= i < |saved|
      ensures Numbered(nm, saved)[i].name != nm.name(|saved|)
    {
      NamesDiffer(nm, i, |saved|);
    }
  }

  lemma WindowOfNumbered(nm: Naming, saved: seq<seq<Message>>, limit: nat)
    ensures var start := if |saved| <= limit then 0 else |saved| - limit;
      Recent(Numbered(nm, saved), limit) == Numbered(nm, saved)[start..]
  {
    NumberedHaveMessages(nm, saved, |saved|);
    assert Numbered(nm, saved)[..|saved|] == Numbered(nm, saved);
  }

  /** The window, however short, names the next turn after all turns saved so far. */
  lemma WindowNamesNext(nm: Naming, limit: nat, saved: seq<seq<Message>>)
    requires Faithful(nm) && limit >= 1
    ensures NextNumber(nm, Recent(Numbered(nm, saved), limit)) == |saved|
  {
    WindowOfNumbered(nm, saved, limit);
    if saved != [] {
      var start := if |saved| <= limit then 0 else |saved| - limit;
      assert Numbered(nm, saved)[start..] == Numbered(nm, saved)[start..|saved|];
      SuffixNamesNext(nm, saved, start, |saved|);
    }
  }

  lemma SendNumbered(nm: Naming, limit: nat, saved: seq<seq<Message>>, m: seq<Message>)
    requires Faithful(nm) && limit >= 1
    ensures Send(nm, limit, Numbered(nm, saved), m) == Numbered(nm, saved + [m])
  {
    WindowNamesNext(nm, limit, saved);
    NewName(nm, saved);
    UpsertNew(Numbered(nm, saved), nm.name(|saved|), Some(m));
    assert Numbered(nm, saved + [m]) == Numbered(nm, saved) + [TurnRow(nm.name(|saved|), Some(m))];
  }

  /** Turn names never collide: with a window of at least one turn, the n-th saved turn is
      named turn-(n-1), however many turns the window leaves out. */
  lemma {:induction false} TurnNamesNeverCollide(nm: Naming, limit: nat, saved: seq<seq<Message>>)
    requires Faithful(nm) && limit >= 1
    ensures SendAll(nm, limit, saved) == Numbered(nm, saved)
  {
    if saved != [] {
      var before, m := saved[..|saved| - 1], saved[|saved| - 1];
      assert saved == before + [m];
      TurnNamesNeverCollide(nm, limit, before);
      SendAllLast(nm, limit, before, m);
      SendNumbered(nm, limit, before, m);
    }
  }

  lemma SendAllLast(nm: Naming, limit: nat, before: seq<seq<Message>>, m: seq<Message>)
    ensures SendAll(nm, limit, before + [m]) == Send(nm, limit, SendAll(nm, limit, before), m)
  {
    var saved := before + [m];
    assert saved[..|saved| - 1] == before;
  }

  /** ... and only with one: an empty window calls every turn turn-0, so each turn
      overwrites the one before. */
  lemma {:induction false} EmptyWindowOverwrites(nm: Naming, saved: seq<seq<Message>>)
    requires saved != []
    ensures SendAll(nm, 0, saved) == [TurnRow(nm.name(0), Some(saved[|saved| - 1]))]
    decreases |saved|
  {
    var before := saved[..|saved| - 1];
    var rows := SendAll(nm, 0, before);
    assert Recent(rows, 0) == [];
    if before != [] {
      EmptyWindowOverwrites(nm, before);
    }
  }

  lemma NoTurnLostIff(nm: Naming, limit: nat)
    requires Faithful(nm)
    ensures (forall saved :: |SendAll(nm, limit, saved)| == |saved|) <==> limit >= 1
  {
    if limit >= 1 {
      forall saved
        ensures |SendAll(nm, limit, saved)| == |saved|
      {
        TurnNamesNeverCollide(nm, limit, saved);
      }
    } else {
      var two: seq<seq<Message>> := [[], []];
      EmptyWindowOverwrites(nm, two);
      assert |SendAll(nm, limit, two)| != |two|;
    }
  }

  // ---------------------------------------------------------------- sorting by turn number

  datatype Entry = Entry(key: string, messages: seq<Message>)

  /** A dictionary in insertion order: assigning to a key that is there keeps its place. */
  function Put(context: seq<Entry>, e: Entry): seq<Entry> {
    if context == [] then [e]
    else if context[0].key == e.key then [e] + context[1..]
    else [context[0]] + Put(context[1..], e)
  }

  lemma {:induction false} PutKnown(context: seq<Entry>, e: Entry, i: nat)
    requires i < |context| && context[i].key == e.key && forall j :: 0 <= j < i ==> context[j].key != e.key
    ensures Put(context, e) == context[i := e]
  {
    if i > 0 {
      PutKnown(context[1..], e, i - 1);
    }
  }

  /** The context of a turn: the window's turns that have messages, keyed by name. */
  function ContextOf(turns: seq<TurnRow>): seq<Entry> {
    if turns == [] then []
    else
      var before := ContextOf(turns[..|turns| - 1]);
      var last := turns[|turns| - 1];
      if last.messages.Some? && last.messages.value != []
      then Put(before, Entry(last.name, last.messages.value))
      else before
  }

  /** a sorts no later than b; a name without a number sorts last. */
  predicate NoLater(nm: Naming, a: Entry, b: Entry) {
    var x, y := nm.number(a.key), nm.number(b.key);
    y.None? || (x.Some? && x.value <= y.value)
  }

  function Insert<T>(le: (T, T) -> bool, sorted: seq<T>, e: T): seq<T> {
    if sorted == [] || le(sorted[|sorted| - 1], e) then sorted + [e]
    else Insert(le, sorted[..|sorted| - 1], e) + [sorted[|sorted| - 1]]
  }

  /** A stable sort. */
  function Sorted<T>(le: (T, T) -> bool, s: seq<T>): seq<T> {
    if s == [] then [] else Insert(le, Sorted(le, s[..|s| - 1]), s[|s| - 1])
  }

  /** Python's sorted() with the turn number as key. */
  function SortByTurn(nm: Naming, context: seq<Entry>): seq<Entry> {
    Sorted((a, b) => NoLater(nm, a, b), context)
  }

  function Messages(context: seq<Entry>): seq<seq<Message>> {
    seq(|context|, i requires 0 <= i < |context| => context[i].messages)
  }

  ghost predicate Total<T(!new)>(le: (T, T) -> bool) {
    && (forall a, b :: le(a, b) || le(b, a))
    && (forall a, b, c :: le(a, b) && le(b, c) ==> le(a, c))
  }

  ghost predicate Ascends<T>(le: (T, T) -> bool, s: seq<T>) {
    forall i, j :: 0 <= i < j < |s| ==> le(s[i], s[j])
  }

  lemma AppendAscends<T(!new)>(le: (T, T) -> bool, s: seq<T>, e: T)
    requires Ascends(le, s) && forall x :: x in s ==> le(x, e)
    ensures Ascends(le, s + [e])
  {
  }

  lemma {:induction false} InsertAscends<T(!new)>(le: (T, T) -> bool, sorted: seq<T>, e: T)
    requires Total(le) && Ascends(le, sorted)
    ensures Ascends(le, Insert(le, sorted, e))
    ensures forall x :: x in Insert(le, sorted, e) ==> x in sorted || x == e
    decreases |sorted|
  {
    if sorted != [] {
      var before, last := sorted[..|sorted| - 1], sorted[|sorted| - 1];
      if le(last, e) {
        assert forall x :: x in sorted ==> le(x, last) || x == last;
        AppendAscends(le, sorted, e);
      } else {
        InsertAscends(le, before, e);
        AppendAscends(le, Insert(le, before, e), last);
      }
    }
  }

  lemma {:induction false} SortAscends<T(!new)>(le: (T, T) -> bool, s: seq<T>)
    requires Total(le)
    ensures Ascends(le, Sorted(le, s))
    decreases |s|
  {
    if s != [] {
      SortAscends(le, s[..|s| - 1]);
      InsertAscends(le, Sorted(le, s[..|s| - 1]), s[|s| - 1]);
    }
  }

  /** The elements with the property, in order. */
  function Filter<T>(p: T -> bool, s: seq<T>): seq<T> {
    if s == [] then [] else Filter(p, s[..|s| - 1]) + (if p(s[|s| - 1]) then [s[|s| - 1]] else [])
  }

  lemma FilterLast<T>(p: T -> bool, before: seq<T>, e: T)
    ensures Filter(p, before + [e]) == Filter(p, before) + (if p(e) then [e] else [])
  {
    assert (before + [e])[..|before|] == before;
  }

  /** Inserting goes behind everything that is not greater. */
  lemma {:induction false} InsertIsStable<T(!new)>(le: (T, T) -> bool, p: T -> bool, sorted: seq<T>, e: T)
    requires forall a, b :: p(a) && p(b) ==> le(a, b)
    ensures Filter(p, Insert(le, sorted, e)) == Filter(p, sorted) + (if p(e) then [e] else [])
    decreases |sorted|
  {
    if sorted == [] || le(sorted[|sorted| - 1], e) {
      FilterLast(p, sorted, e);
    } else {
      var before, last := sorted[..|sorted| - 1], sorted[|sorted| - 1];
      InsertIsStable(le, p, before, e);
      FilterLast(p, Insert(le, before, e), last);
    }
  }

  lemma {:induction false} SortIsStable<T(!new)>(le: (T, T) -> bool, p: T -> bool, s: seq<T>)
    requires forall a, b :: p(a) && p(b) ==> le(a, b)
    ensures Filter(p, Sorted(le, s)) == Filter(p, s)
    decreases |s|
  {
    if s != [] {
      SortIsStable(le, p, s[..|s| - 1]);
      InsertIsStable(le, p, Sorted(le, s[..|s| - 1]), s[|s| - 1]);
    }
  }

  /** The entries of one number. */
  function Numbers(nm: Naming, number: Option<int>): Entry -> bool {
    (e: Entry) => nm.number(e.key) == number
  }

  /** Whatever keys a context has, in whatever order: sorting it puts turn numbers in ascending
      order and names without a number last, and keeps the entries of one number, or of none,
      as they are. */
  lemma SortsByTurn(nm: Naming, context: seq<Entry>, number: Option<int>)
    ensures var sorted := SortByTurn(nm, context);
      && (forall i, j :: 0 <= i < j < |sorted| && nm.number(sorted[j].key).Some? ==>
            nm.number(sorted[i].key).Some? && nm.number(sorted[i].key).value <= nm.number(sorted[j].key).value)
      && Filter(Numbers(nm, number), sorted) == Filter(Numbers(nm, number), context)
  {
    var le := (a, b) => NoLater(nm, a, b);
    SortAscends(le, context);
    SortIsStable(le, Numbers(nm, number), context);
  }

  /** A list that ascends is sorted as it is. */
  lemma {:induction false} AscendingIsSorted<T>(le: (T, T) -> bool, s: seq<T>)
    requires forall j :: 0 < j < |s| ==> le(s[j - 1], s[j])
    ensures Sorted(le, s) == s
    decreases |s|
  {
    if s != [] {
      var before, last := s[..|s| - 1], s[|s| - 1];
      AscendingIsSorted(le, before);
      assert s == before + [last];
    }
  }

  lemma NextIsNoLater(nm: Naming, a: Entry, b: Entry, n: nat)
    requires Faithful(nm) && a.key == nm.name(n) && b.key == nm.name(n + 1)
    ensures NoLater(nm, a, b)
  {
    assert nm.number(nm.name(n)) == Some(n) && nm.number(nm.name(n + 1)) == Some(n + 1);
  }

  lemma {:induction false} PutNew(context: seq<Entry>, e: Entry)
    requires forall j :: 0 <= j < |context| ==> context[j].key != e.key
    ensures Put(context, e) == context + [e]
  {
    if context != [] {
      PutNew(context[1..], e);
    }
  }

  /** The context of consecutive numbered turns is those turns. */
  function Entries(nm: Naming, saved: seq<seq<Message>>, i: nat, k: nat): seq<Entry>
    requires i <= k <= |saved|
  {
    seq(k - i, j requires 0 <= j < k - i => Entry(nm.name(i + j), saved[i + j]))
  }

  /** The context of rows with messages under distinct names is those rows. */
  lemma {:induction false} ContextOfRows(rows: seq<TurnRow>)
    requires forall i, j :: 0 <= i < j < |rows| ==> rows[i].name != rows[j].name
    requires forall i :: 0 <= i < |rows| ==> rows[i].messages.Some? && rows[i].messages.value != []
    ensures |ContextOf(rows)| == |rows|
    ensures forall i :: 0 <= i < |rows| ==> ContextOf(rows)[i] == Entry(rows[i].name, rows[i].messages.value)
    decreases |rows|
  {
    if rows != [] {
      var before, last := rows[..|rows| - 1], rows[|rows| - 1];
      assert rows == before + [last];
      ContextOfRows(before);
      ContextLast(before, last);
      PutNew(ContextOf(before), Entry(last.name, last.messages.value));
    }
  }

  lemma ContextOfNumbered(nm: Naming, saved: seq<seq<Message>>, i: nat, k: nat)
    requires Faithful(nm) && i <= k <= |saved| && forall j :: 0 <= j < |saved| ==> saved[j] != []
    ensures ContextOf(Numbered(nm, saved)[i..k]) == Entries(nm, saved, i, k)
  {
    var rows := Numbered(nm, saved)[i..k];
    forall a, b | 0 <= a < b < |rows|
      ensures rows[a].name != rows[b].name
    {
      NamesDiffer(nm, i + a, i + b);
    }
    ContextOfRows(rows);
  }

  lemma ContextLast(turns: seq<TurnRow>, last: TurnRow)
    requires last.messages.Some? && last.messages.value != []
    ensures ContextOf(turns + [last]) == Put(ContextOf(turns), Entry(last.name, last.messages.value))
  {
    var all := turns + [last];
    assert all[..|all| - 1] == turns;
  }

  /** The messages the history is built from, as turn n+1 sees them. */
  function HistoryInput(nm: Naming, limit: nat, rows: seq<TurnRow>): seq<seq<Message>> {
    Messages(SortByTurn(nm, ContextOf(Recent(rows, limit))))
  }

  /** Sorting by turn number gives chronological order: the history is built from the
      newest `limit` turns, oldest first. */
  lemma HistoryIsChronological(nm: Naming, limit: nat, saved: seq<seq<Message>>)
    requires Faithful(nm) && limit >= 1
    requires forall j :: 0 <= j < |saved| ==> saved[j] != []
    ensures var start := if |saved| <= limit then 0 else |saved| - limit;
      HistoryInput(nm, limit, SendAll(nm, limit, saved)) == saved[start..]
  {
    var start := if |saved| <= limit then 0 else |saved| - limit;
    TurnNamesNeverCollide(nm, limit, saved);
    WindowOfNumbered(nm, saved, limit);
    WindowIsSorted(nm, saved, start);
  }

  lemma WindowIsSorted(nm: Naming, saved: seq<seq<Message>>, start: nat)
    requires Faithful(nm) && start <= |saved|
    requires forall j :: 0 <= j < |saved| ==> saved[j] != []
    ensures Messages(SortByTurn(nm, ContextOf(Numbered(nm, saved)[start..]))) == saved[start..]
  {
    assert Numbered(nm, saved)[start..] == Numbered(nm, saved)[start..|saved|];
    ContextOfNumbered(nm, saved, start, |saved|);
    EntriesAreSorted(nm, saved, start);
  }

  lemma EntriesAreSorted(nm: Naming, saved: seq<seq<Message>>, start: nat)
    requires Faithful(nm) && start <= |saved|
    ensures Messages(SortByTurn(nm, Entries(nm, saved, start, |saved|))) == saved[start..]
  {
    var context := Entries(nm, saved, start, |saved|);
    forall j | 0 < j < |context|
      ensures NoLater(nm, context[j - 1], context[j])
    {
      NextIsNoLater(nm, context[j - 1], context[j], start + (j - 1));
    }
    AscendingIsSorted((a, b) => NoLater(nm, a, b), context);
    assert Messages(context) == saved[start..];
  }

  // ---------------------------------------------------------------- a whole conversation

  function SavedTurns(c: Codec, turns: seq<Turn>): seq<seq<Message>> {
    seq(|turns|, i requires 0 <= i < |turns| => SaveTurn(c, turns[i]))
  }

  lemma {:induction false} SavedIsConcat(c: Codec, turns: seq<Turn>)
    ensures Concat(SavedTurns(c, turns)) == Saved(c, turns)
  {
    if turns != [] {
      assert SavedTurns(c, turns)[1..] == SavedTurns(c, turns[1..]);
      SavedIsConcat(c, turns[1..]);
    }
  }

  lemma SavedSlice(c: Codec, turns: seq<Turn>, start: nat)
    requires start <= |turns|
    ensures Concat(SavedTurns(c, turns)[start..]) == Saved(c, turns[start..])
  {
    assert SavedTurns(c, turns)[start..] == SavedTurns(c, turns[start..]);
    SavedIsConcat(c, turns[start..]);
  }

  lemma SavedTurnsAreFull(c: Codec, turns: seq<Turn>)
    ensures |SavedTurns(c, turns)| == |turns| && forall j :: 0 <= j < |turns| ==> SavedTurns(c, turns)[j] != []
  {
  }

  /** The history of the next turn is built from the newest turns, in order. */
  lemma NewestAreReplayed(nm: Naming, limit: nat, c: Codec, turns: seq<Turn>, input: seq<seq<Message>>, start: nat)
    requires Faithful(nm) && limit >= 1 && start == if |turns| <= limit then 0 else |turns| - limit
    requires input == HistoryInput(nm, limit, SendAll(nm, limit, SavedTurns(c, turns)))
    ensures Concat(input) == Saved(c, turns[start..])
  {
    assert input == SavedTurns(c, turns)[start..] by {
      SavedTurnsAreFull(c, turns);
      HistoryIsChronological(nm, limit, SavedTurns(c, turns));
    }
    SavedSlice(c, turns, start);
  }

  /** For every conversation and every window of at least one turn, the history the next turn
      is given holds exactly the newest turns in order, and its ids are answerable. */
  lemma ConversationIsAnswerable(nm: Naming, limit: nat, c: Codec, turns: seq<Turn>)
    requires Faithful(nm) && limit >= 1
    ensures var start := if |turns| <= limit then 0 else |turns| - limit;
      var ms := Concat(HistoryInput(nm, limit, SendAll(nm, limit, SavedTurns(c, turns))));
      ms == Saved(c, turns[start..]) && Answerable(PartsUpTo(ms, |ms|))
  {
    var start := if |turns| <= limit then 0 else |turns| - limit;
    var input := HistoryInput(nm, limit, SendAll(nm, limit, SavedTurns(c, turns)));
    NewestAreReplayed(nm, limit, c, turns, input, start);
    HistoryIsAnswerable(c, turns[start..]);
  }
}
