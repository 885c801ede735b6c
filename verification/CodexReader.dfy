/**
 Reading the converted input back: what it says of the transcript, row by row and field by field, and where the
 placeholders stand in it.
 */
module CodexReader {
  import opened Wrappers
  import opened CodexConvert
  import opened CodexRepair

  // ---- fields ----

  /** f is the text of s up to its first bar. */
  predicate FirstField(s: string, f: string) {
    |f| <= |s| && s[..|f|] == f && '|' !in f && (|f| < |s| ==> s[|f|] == '|')
  }

  /** An id names this call, and this item if its second field is not blank. */
  predicate NamesCall(id: string, callId: string, itemId: Option<string>) {
    && FirstField(id, callId)
    && if |callId| == |id| then itemId.None?
       else FirstField(id[|callId| + 1..], itemId.GetOr("")) && itemId != Some("")
  }

  /** A blank optional string counts as none. */
  predicate SameText(shown: Option<string>, held: Option<string>) { shown == if held == Some("") then None else held }

  // ---- what an item says of a row ----

  predicate PartSays(p: Part, of: Part) {
    if of.ImagePart? then p.ImagePart? && p.url == of.url && p.detail == (if of.detail.GetOr("") == "" then Some("auto") else of.detail)
    else p == of
  }

  predicate UserSays(item: Item, content: Content) {
    && item.UserMessage?
    && match content
       case Text(t) => item.content == [TextPart(t)]
       case Parts(ps) => |item.content| == |ps| && forall i :: 0 <= i < |ps| ==> PartSays(item.content[i], ps[i])
       case Other(shown) => item.content == [TextPart(shown)]
  }

  predicate CallSays(item: Item, call: Call) {
    item.FunctionCall? && item.name == call.name && item.arguments == call.arguments && NamesCall(call.id, item.callId, item.itemId)
  }

  predicate ReasoningSays(item: Item, r: Reasoning) {
    item.ReasoningItem? && SameText(item.r.id, r.id) && SameText(item.r.encrypted, r.encrypted) && item.r.summary == r.summary
  }

  /** A tool row's output, under the call its id names, or under the id itself when that field is blank. */
  predicate OutputSays(item: Item, id: string, output: Option<string>) {
    && item.FunctionCallOutput? && item.output == (if output.Some? then output.value else "")
    && if FirstField(id, "") then item.callId == id else FirstField(id, item.callId)
  }

  /** Has the row anything to say after its calls? A blank string has not. */
  predicate Speaks(said: Option<Content>) { said.Some? && said != Some(Text("")) }

  predicate SaidSays(item: Item, said: Option<Content>) {
    item.AssistantMessage? && said.Some? && item.text == if said.value.Text? then said.value.text else ""
  }

  predicate AssistantSays(items: seq<Item>, rs: seq<Reasoning>, calls: seq<Call>, said: Option<Content>) {
    && |items| == |rs| + |calls| + (if Speaks(said) then 1 else 0)
    && (forall i :: 0 <= i < |rs| ==> ReasoningSays(items[i], rs[i]))
    && (forall i :: 0 <= i < |calls| ==> CallSays(items[|rs| + i], calls[i]))
    && (Speaks(said) ==> SaidSays(items[|rs| + |calls|], said))
  }

  /** The items of one row. */
  predicate RowSays(items: seq<Item>, m: Message) {
    match m
    case System => items == []
    case User(content) => |items| == 1 && UserSays(items[0], content)
    case Assistant(rs, calls, said) => AssistantSays(items, rs, calls, said)
    case Tool(id, output) => |items| == 1 && OutputSays(items[0], id, output)
  }

  /** The items are those of the rows, one row after the other. */
  ghost predicate RowsSay(items: seq<Item>, ms: seq<Message>)
    decreases |ms|
  {
    if ms == [] then items == []
    else exists n: nat :: n <= |items| && RowSays(items[..n], ms[0]) && RowsSay(items[n..], ms[1..])
  }

  // ---- the rows say what they hold ----

  lemma DecodeNames(id: string)
    ensures NamesCall(id, Decode(id).callId, Decode(id).itemId)
  {
  }

  lemma CallsSay(calls: seq<Call>)
    ensures |CallItems(calls)| == |calls| && forall i :: 0 <= i < |calls| ==> CallSays(CallItems(calls)[i], calls[i])
  {
    forall i | 0 <= i < |calls| ensures CallSays(CallItems(calls)[i], calls[i]) {
      DecodeNames(calls[i].id);
    }
  }

  lemma ReasoningsSay(rs: seq<Reasoning>)
    ensures |ReasoningItems(rs)| == |rs| && forall i :: 0 <= i < |rs| ==> ReasoningSays(ReasoningItems(rs)[i], rs[i])
  {
  }

  lemma AssistantIsSaid(rs: seq<Reasoning>, calls: seq<Call>, said: Option<Content>)
    ensures AssistantSays(ReasoningItems(rs) + CallItems(calls) + Said(said), rs, calls, said)
  {
    ReasoningsSay(rs);
    CallsSay(calls);
    hide ReasoningItems, CallItems, ReasoningSays, CallSays;
    var a, b, c := ReasoningItems(rs), CallItems(calls), Said(said);
    var items := a + b + c;
    assert |c| == if Speaks(said) then 1 else 0;
    assert forall i :: 0 <= i < |rs| ==> items[i] == a[i];
    assert forall i :: 0 <= i < |calls| ==> items[|rs| + i] == b[i];
    assert Speaks(said) ==> items[|rs| + |calls|] == c[0];
  }

  lemma ToolIsSaid(m: Message)
    requires m.Tool?
    ensures OutputSays(ToolItem(m), m.toolCallId, m.output)
  {
    DecodeNames(m.toolCallId);
    var c := Decode(m.toolCallId).callId;
    assert c == "" <==> FirstField(m.toolCallId, "");
  }

  lemma UserIsSaid(content: Content)
    ensures UserSays(UserMessage(UserParts(content)), content)
  {
  }

  lemma RowIsSaid(m: Message)
    ensures RowSays(RowItems(m), m)
  {
    hide AssistantSays, OutputSays, UserSays, ReasoningItems, CallItems, Said, UserParts, ToolItem;
    match m
    case System =>
    case User(content) => UserIsSaid(content);
    case Assistant(rs, calls, said) => AssistantIsSaid(rs, calls, said);
    case Tool(_, _) => ToolIsSaid(m);
  }

  lemma {:induction false} RowByRowSays(ms: seq<Message>)
    ensures RowsSay(RowByRow(ms), ms)
  {
    hide RowSays, RowItems;
    if ms != [] {
      RowByRowSays(ms[1..]);
      RowIsSaid(ms[0]);
      var items, n := RowByRow(ms), |RowItems(ms[0])|;
      assert items[..n] == RowItems(ms[0]) && items[n..] == RowByRow(ms[1..]);
    }
  }

  // ---- placeholders ----

  /** A call of the transcript goes by this id. */
  ghost predicate Made(ms: seq<Message>, c: string) {
    exists i, j :: 0 <= i < |ms| && ms[i].Assistant? && 0 <= j < |ms[i].calls| && FirstField(ms[i].calls[j].id, c)
  }

  /** A tool row answers this call; a blank id answers none. */
  ghost predicate Recorded(ms: seq<Message>, c: string) {
    c != "" && exists i :: 0 <= i < |ms| && ms[i].Tool? && FirstField(ms[i].toolCallId, c)
  }

  lemma OneFirstField(s: string, f: string, g: string)
    requires FirstField(s, f) && FirstField(s, g)
    ensures f == g
  {
    forall k | 0 <= k < |f| ensures s[k] == f[k] && s[k] != '|' { assert s[..|f|][k] == s[k]; }
    forall k | 0 <= k < |g| ensures s[k] == g[k] && s[k] != '|' { assert s[..|g|][k] == s[k]; }
    assert |f| == |g|;
  }

  lemma AnsweredIsRecorded(ms: seq<Message>, c: string)
    ensures c in Answered(ms) <==> Recorded(ms, c)
  {
    if c in Answered(ms) {
      var m :| m in ms && m.Tool? && Decode(m.toolCallId).callId == c;
      var i :| 0 <= i < |ms| && ms[i] == m;
      DecodeNames(m.toolCallId);
      assert FirstField(ms[i].toolCallId, c);
    }
    if Recorded(ms, c) {
      var i :| 0 <= i < |ms| && ms[i].Tool? && FirstField(ms[i].toolCallId, c);
      DecodeNames(ms[i].toolCallId);
      OneFirstField(ms[i].toolCallId, c, Decode(ms[i].toolCallId).callId);
    }
  }

  /** Every owed call is one of the transcript's that no tool row answers. */
  ghost predicate OwedFits(ms: seq<Message>, owed: seq<Owed>) {
    forall o :: o in owed ==> Made(ms, o.callId) && !Recorded(ms, o.callId)
  }

  ghost predicate PlaceholdersFit(ms: seq<Message>, es: seq<Emitted>) {
    forall e :: e in es && e.Placeholder? ==> Made(ms, e.callId) && !Recorded(ms, e.callId)
  }

  lemma {:induction false} OwedFromFits(ms: seq<Message>, i: nat, j: nat)
    requires i < |ms| && ms[i].Assistant? && j <= |ms[i].calls|
    ensures OwedFits(ms, OwedFrom(ms[i].calls, j, Answered(ms)))
    decreases |ms[i].calls| - j
  {
    hide Made, Recorded, Decode, Answered;
    var calls := ms[i].calls;
    if j < |calls| {
      OwedFromFits(ms, i, j + 1);
      AnsweredIsRecorded(ms, CallId(calls[j]));
      DecodeNames(calls[j].id);
      assert Made(ms, CallId(calls[j])) by { MadeHere(ms, i, j); }
    }
  }

  lemma MadeHere(ms: seq<Message>, i: nat, j: nat)
    requires i < |ms| && ms[i].Assistant? && j < |ms[i].calls|
    ensures Made(ms, CallId(ms[i].calls[j]))
  {
    DecodeNames(ms[i].calls[j].id);
    assert FirstField(ms[i].calls[j].id, CallId(ms[i].calls[j]));
  }

  lemma EmitFits(ms: seq<Message>, m: Message, owed: seq<Owed>, positions: map<string, nat>)
    requires OwedFits(ms, owed)
    ensures PlaceholdersFit(ms, Emit(m, owed, positions))
    ensures OwedFits(ms, Left(owed, Bound(m, positions)))
  {
    hide Made, Recorded, RowItems, Bound;
    SplitFits(ms, owed, Bound(m, positions));
    var due := Due(owed, Bound(m, positions));
    forall e | e in Placeholders(due) ensures e.Placeholder? && Made(ms, e.callId) && !Recorded(ms, e.callId) {
      var i :| 0 <= i < |due| && Placeholders(due)[i] == e;
      assert due[i] in due;
    }
  }

  lemma {:induction false} SplitFits(ms: seq<Message>, owed: seq<Owed>, before: Option<int>)
    requires OwedFits(ms, owed)
    ensures OwedFits(ms, Due(owed, before)) && OwedFits(ms, Left(owed, before))
  {
    hide Made, Recorded, IsDue;
    if owed != [] {
      assert owed[0] in owed && forall o :: o in owed[1..] ==> o in owed;
      SplitFits(ms, owed[1..], before);
    }
  }

  lemma {:induction false} RepairFits(ms: seq<Message>, i: nat, owed: seq<Owed>, positions: map<string, nat>)
    requires i <= |ms| && OwedFits(ms, owed)
    ensures PlaceholdersFit(ms, Repair(ms[i..], owed, positions, Answered(ms)))
    decreases |ms| - i
  {
    hide Made, Recorded, Emit, Left, Due, Bound, Answered, OwedFrom, PositionsAfter, OwedFits;
    if i == |ms| {
      LastFit(ms, owed);
    } else {
      var m := ms[i];
      var owed' := OwedAfter(m, owed, positions, Answered(ms));
      EmitFits(ms, m, owed, positions);
      if m.Assistant? { OwedFromFits(ms, i, 0); }
      assert OwedFits(ms, []) by { NothingOwed(ms); }
      assert ms[i..][0] == m && ms[i..][1..] == ms[i + 1..];
      RepairFits(ms, i + 1, owed', PositionsAfter(m, positions));
    }
  }

  lemma NothingOwed(ms: seq<Message>)
    ensures OwedFits(ms, [])
  {
  }

  lemma LastFit(ms: seq<Message>, owed: seq<Owed>)
    requires OwedFits(ms, owed)
    ensures PlaceholdersFit(ms, Placeholders(owed))
  {
    hide Made, Recorded;
    forall e | e in Placeholders(owed) ensures Made(ms, e.callId) && !Recorded(ms, e.callId) {
      var i :| 0 <= i < |owed| && Placeholders(owed)[i] == e;
      assert owed[i] in owed;
    }
  }

  // ---- the whole input ----

  /** The items that are not marked, in order. */
  function Unmarked(input: seq<Item>, marked: seq<bool>): seq<Item>
    requires |marked| == |input|
  {
    if input == [] then [] else (if marked[0] then [] else [input[0]]) + Unmarked(input[1..], marked[1..])
  }

  /**
   The input says what the transcript holds: some of its items are placeholders, each for a call of the transcript that no
   tool row answers, and the others are the rows' items, row after row: user messages with their parts, reasoning with its
   fields, calls with name, arguments and ids, texts, and every recorded output under its call.
   */
  ghost predicate Says(input: seq<Item>, ms: seq<Message>) {
    exists marked: seq<bool> ::
      && |marked| == |input| && RowsSay(Unmarked(input, marked), ms)
      && MarksFit(input, marked, ms)
  }

  function Marks(es: seq<Emitted>): seq<bool> { seq(|es|, i requires 0 <= i < |es| => es[i].Placeholder?) }

  lemma {:induction false} UnmarkedAreReal(es: seq<Emitted>)
    ensures Unmarked(Plains(es), Marks(es)) == RealItems(es)
  {
    if es != [] {
      UnmarkedAreReal(es[1..]);
      assert Plains(es)[1..] == Plains(es[1..]) && Marks(es)[1..] == Marks(es[1..]);
    }
  }

  ghost predicate MarksFit(input: seq<Item>, marked: seq<bool>, ms: seq<Message>) {
    && |marked| == |input|
    && forall i :: 0 <= i < |input| && marked[i] ==> PlaceholderFits(input[i], ms)
  }

  ghost predicate PlaceholderFits(item: Item, ms: seq<Message>) {
    item.FunctionCallOutput? && item.output == MISSING_TOOL_OUTPUT && Made(ms, item.callId) && !Recorded(ms, item.callId)
  }

  lemma MarkedFit(es: seq<Emitted>, ms: seq<Message>)
    requires PlaceholdersFit(ms, es)
    ensures MarksFit(Plains(es), Marks(es), ms)
  {
    hide Made, Recorded;
    forall i | 0 <= i < |es| && Marks(es)[i] ensures PlaceholderFits(Plains(es)[i], ms) {
      assert es[i] in es;
    }
  }

  lemma NothingMissing(ms: seq<Message>)
    ensures PlaceholdersFit(ms, Converted(ms))
  {
    hide PlaceholdersFit;
    NothingOwed(ms);
    assert ms[0..] == ms;
    RepairFits(ms, 0, [], map[]);
  }

  /** For every transcript. */
  lemma ConversionSays(ms: seq<Message>)
    ensures Says(Plains(Converted(ms)), ms)
  {
    hide RowsSay, Converted, RealItems, RowByRow, Unmarked, MarksFit, PlaceholdersFit;
    var es := Converted(ms);
    ConversionIsLossless(ms);
    RowByRowSays(ms);
    NothingMissing(ms);
    MarkedFit(es, ms);
    UnmarkedAreReal(es);
    SaysSo(Plains(es), Marks(es), ms);
  }

  lemma SaysSo(input: seq<Item>, marked: seq<bool>, ms: seq<Message>)
    requires |marked| == |input| && RowsSay(Unmarked(input, marked), ms) && MarksFit(input, marked, ms)
    ensures Says(input, ms)
  {
    hide RowsSay, Unmarked, Made, Recorded;
  }
}
