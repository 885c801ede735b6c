/**
 Conversion of a chat transcript to Responses API input items, with orphan repair:
 a replayed call whose output was never recorded gets a placeholder output where its
 real one would have sat.
 */
module CodexConvert {
  import opened Wrappers

  // ---- tool call ids ----

  datatype DecodedId = DecodedId(callId: string, itemId: Option<string>)

  function Encode(callId: string, itemId: Option<string>): string {
    match itemId
    case Some(i) => if i == "" then callId else callId + "|" + i
    case None => callId
  }

  /** The text up to the first `|`, or all of it. */
  function Head(s: string): (h: string)
    ensures |h| <= |s| && s[..|h|] == h && '|' !in h
    ensures |h| < |s| ==> s[|h|] == '|'
  {
    if s == "" || s[0] == '|' then "" else [s[0]] + Head(s[1..])
  }

  /** The first two `|`-separated fields: an empty or missing second one is no item id. */
  function Decode(encoded: string): DecodedId {
    var h := Head(encoded);
    if |h| == |encoded| then DecodedId(h, None)
    else
      var item := Head(encoded[|h| + 1..]);
      DecodedId(h, if item == "" then None else Some(item))
  }

  lemma {:induction false} HeadOf(c: string, rest: string)
    requires '|' !in c
    ensures Head(c) == c && Head(c + "|" + rest) == c
  {
    if c != "" {
      HeadOf(c[1..], rest);
      assert (c + "|" + rest)[1..] == c[1..] + "|" + rest;
      assert [c[0]] + c[1..] == c;
    }
  }

  /** Decoding recovers what was encoded exactly when neither part is torn by a `|` and the item id is not blank. */
  lemma DecodeInvertsEncode(callId: string, itemId: Option<string>)
    ensures Decode(Encode(callId, itemId)) == DecodedId(callId, itemId)
            <==> '|' !in callId && (itemId.Some? ==> itemId.value != "" && '|' !in itemId.value)
  {
    var e := Encode(callId, itemId);
    if '|' in callId {
      assert '|' !in Head(e);
    } else {
      match itemId
      case None => HeadOf(callId, "");
      case Some(i) =>
        HeadOf(callId, i);
        if i != "" {
          assert e[|callId| + 1..] == i;
          if '|' !in i { HeadOf(i, ""); }
        }
    }
  }

  // ---- transcripts ----

  datatype Reasoning = Reasoning(id: Option<string>, encrypted: Option<string>, summary: Option<seq<string>>)

  datatype Call = Call(id: string, name: string, arguments: string)

  datatype Part = TextPart(text: string) | ImagePart(url: string, detail: Option<string>) | OtherPart(raw: string)

  /** A message's content: a string, a list of parts, or anything else with its string form. */
  datatype Content = Text(text: string) | Parts(parts: seq<Part>) | Other(shown: string)

  datatype Message =
    | System
    | User(content: Content)
    | Assistant(reasoning: seq<Reasoning>, calls: seq<Call>, said: Option<Content>)
    | Tool(toolCallId: string, output: Option<string>)

  datatype Item =
    | UserMessage(content: seq<Part>)
    | AssistantMessage(text: string)
    | ReasoningItem(r: Reasoning)
    | FunctionCall(name: string, callId: string, itemId: Option<string>, arguments: string)
    | FunctionCallOutput(callId: string, output: string)

  const MISSING_TOOL_OUTPUT: string :=
    "[No result was recorded for this tool call. It may or may not have run; check current state before repeating any action with side effects.]"

  /** Blank optional strings are left out of a replayed item. */
  function Present(s: Option<string>): Option<string> {
    if s == Some("") then None else s
  }

  function UserParts(c: Content): seq<Part> {
    match c
    case Text(t) => [TextPart(t)]
    case Parts(ps) => seq(|ps|, i requires 0 <= i < |ps| => ConvertPart(ps[i]))
    case Other(shown) => [TextPart(shown)]
  }

  function ConvertPart(p: Part): Part {
    match p
    case ImagePart(url, detail) => ImagePart(url, Some(match Present(detail) case Some(d) => d case None => "auto"))
    case _ => p
  }

  function CallId(c: Call): string { Decode(c.id).callId }

  function CallItem(c: Call): Item { FunctionCall(c.name, CallId(c), Decode(c.id).itemId, c.arguments) }

  function CallItems(calls: seq<Call>): seq<Item> {
    seq(|calls|, i requires 0 <= i < |calls| => CallItem(calls[i]))
  }

  function ReasoningItems(rs: seq<Reasoning>): seq<Item> {
    seq(|rs|, i requires 0 <= i < |rs| =>
      ReasoningItem(Reasoning(Present(rs[i].id), Present(rs[i].encrypted), rs[i].summary)))
  }

  /** What an assistant row said: nothing for a blank string, a blank text for non-string content. */
  function Said(said: Option<Content>): seq<Item> {
    match said
    case None => []
    case Some(Text(t)) => if t == "" then [] else [AssistantMessage(t)]
    case Some(_) => [AssistantMessage("")]
  }

  function ToolItem(m: Message): Item
    requires m.Tool?
  {
    var callId := Decode(m.toolCallId).callId;
    FunctionCallOutput(if callId != "" then callId else m.toolCallId, m.output.GetOr(""))
  }

  /** One row converted on its own, with no repair. */
  function RowItems(m: Message): seq<Item> {
    match m
    case System => []
    case User(content) => [UserMessage(UserParts(content))]
    case Assistant(rs, calls, said) => ReasoningItems(rs) + CallItems(calls) + Said(said)
    case Tool(_, _) => [ToolItem(m)]
  }

  function RowByRow(ms: seq<Message>): seq<Item> {
    if ms == [] then [] else RowItems(ms[0]) + RowByRow(ms[1..])
  }

  // ---- repair, with placeholders told apart ----

  datatype Emitted = Real(item: Item) | Placeholder(callId: string)

  datatype Owed = Owed(callId: string, position: nat)

  function Plain(e: Emitted): Item {
    match e
    case Real(item) => item
    case Placeholder(callId) => FunctionCallOutput(callId, MISSING_TOOL_OUTPUT)
  }

  function Plains(es: seq<Emitted>): (r: seq<Item>)
    ensures |r| == |es| && forall i :: 0 <= i < |r| ==> r[i] == Plain(es[i])
  {
    seq(|es|, i requires 0 <= i < |es| => Plain(es[i]))
  }

  function Reals(items: seq<Item>): seq<Emitted> {
    seq(|items|, i requires 0 <= i < |items| => Real(items[i]))
  }

  function Answered(ms: seq<Message>): set<string> {
    set m | m in ms && m.Tool? && Decode(m.toolCallId).callId != "" :: Decode(m.toolCallId).callId
  }

  /** The row's unanswered calls from position i on, in call order. */
  function OwedFrom(calls: seq<Call>, i: nat, answered: set<string>): seq<Owed>
    requires i <= |calls|
    decreases |calls| - i
  {
    if i == |calls| then []
    else (if CallId(calls[i]) in answered then [] else [Owed(CallId(calls[i]), i)]) + OwedFrom(calls, i + 1, answered)
  }

  /** Where each call id sits in the row; a repeated id counts at its last place. */
  function PositionsUpTo(calls: seq<Call>, i: nat): map<string, nat>
    requires i <= |calls|
  {
    if i == 0 then map[] else PositionsUpTo(calls, i - 1)[CallId(calls[i - 1]) := i - 1]
  }

  /** Does a placeholder at this position come out before this one? `None` is before everything: Infinity. */
  predicate IsDue(o: Owed, before: Option<int>) {
    before.None? || o.position < before.value
  }

  function Due(owed: seq<Owed>, before: Option<int>): seq<Owed> {
    if owed == [] then []
    else (if IsDue(owed[0], before) then [owed[0]] else []) + Due(owed[1..], before)
  }

  function Left(owed: seq<Owed>, before: Option<int>): seq<Owed> {
    if owed == [] then []
    else (if IsDue(owed[0], before) then [] else [owed[0]]) + Left(owed[1..], before)
  }

  function Placeholders(owed: seq<Owed>): seq<Emitted> {
    seq(|owed|, i requires 0 <= i < |owed| => Placeholder(owed[i].callId))
  }

  /** What a row releases before itself: a tool row the calls before its own, any other row everything. */
  function Bound(m: Message, positions: map<string, nat>): Option<int> {
    if !m.Tool? then None
    else
      var callId := Decode(m.toolCallId).callId;
      Some(if callId in positions then positions[callId] else -1)
  }

  /** What one row adds to the input: system rows nothing, others the due placeholders and then themselves. */
  function Emit(m: Message, owed: seq<Owed>, positions: map<string, nat>): seq<Emitted> {
    if m.System? then [] else Placeholders(Due(owed, Bound(m, positions))) + Reals(RowItems(m))
  }

  function OwedAfter(m: Message, owed: seq<Owed>, positions: map<string, nat>, answered: set<string>): seq<Owed> {
    match m
    case System => owed
    case User(_) => []
    case Assistant(_, calls, _) => OwedFrom(calls, 0, answered)
    case Tool(_, _) => Left(owed, Bound(m, positions))
  }

  function PositionsAfter(m: Message, positions: map<string, nat>): map<string, nat> {
    if m.Assistant? then PositionsUpTo(m.calls, |m.calls|) else positions
  }

  /** The repaired conversion of the remaining rows, given what the current assistant row still owes. */
  function Repair(ms: seq<Message>, owed: seq<Owed>, positions: map<string, nat>, answered: set<string>): seq<Emitted> {
    if ms == [] then Placeholders(owed)
    else Emit(ms[0], owed, positions)
           + Repair(ms[1..], OwedAfter(ms[0], owed, positions, answered), PositionsAfter(ms[0], positions), answered)
  }

  function Converted(ms: seq<Message>): seq<Emitted> {
    Repair(ms, [], map[], Answered(ms))
  }

  // ---- the two loops ----

  method CollectAnsweredCallIds(messages: seq<Message>) returns (answered: set<string>)
    ensures answered == Answered(messages)
  {
    answered := {};
    for i := 0 to |messages|
      invariant answered == Answered(messages[..i])
    {
      assert messages[..i + 1] == messages[..i] + [messages[i]];
      var msg := messages[i];
      if msg.Tool? {
        var callId := Decode(msg.toolCallId).callId;
        if callId != "" {
          answered := answered + {callId};
        }
      }
    }
    assert messages[..|messages|] == messages;
  }

  lemma {:induction false} AllDue(owed: seq<Owed>)
    ensures Due(owed, None) == owed && Left(owed, None) == []
  {
    if owed != [] {
      AllDue(owed[1..]);
      assert [owed[0]] + owed[1..] == owed;
    }
  }

  lemma PlainsAppend(es: seq<Emitted>, fs: seq<Emitted>)
    ensures Plains(es + fs) == Plains(es) + Plains(fs)
  {
  }

  /** releaseOwed: push the placeholders due before a position and keep the rest. */
  method ReleaseOwed(input: seq<Item>, owed: seq<Owed>, before: Option<int>) returns (input': seq<Item>, left: seq<Owed>)
    ensures input' == input + Plains(Placeholders(Due(owed, before))) && left == Left(owed, before)
  {
    hide Due, Left;
    var due := Due(owed, before);
    left := Left(owed, before);
    input' := input;
    for i := 0 to |due|
      invariant input' == input + Plains(Placeholders(due[..i]))
    {
      PlaceholdersMore(due, i);
      input' := input' + [FunctionCallOutput(due[i].callId, MISSING_TOOL_OUTPUT)];
    }
    assert due[..|due|] == due;
  }

  lemma PlaceholdersMore(due: seq<Owed>, i: nat)
    requires i < |due|
    ensures Plains(Placeholders(due[..i + 1]))
            == Plains(Placeholders(due[..i])) + [FunctionCallOutput(due[i].callId, MISSING_TOOL_OUTPUT)]
  {
    assert Placeholders(due[..i + 1]) == Placeholders(due[..i]) + [Placeholder(due[i].callId)];
    PlainsAppend(Placeholders(due[..i]), [Placeholder(due[i].callId)]);
  }

  /** Replay an assistant row's calls, noting their positions and the unanswered ones. */
  method ReplayCalls(input: seq<Item>, calls: seq<Call>, answered: set<string>)
    returns (input': seq<Item>, owed: seq<Owed>, positions: map<string, nat>)
    ensures input' == input + CallItems(calls)
    ensures owed == OwedFrom(calls, 0, answered) && positions == PositionsUpTo(calls, |calls|)
  {
    hide Decode;
    input', owed, positions := input, [], map[];
    for i := 0 to |calls|
      invariant input' == input + CallItems(calls[..i])
      invariant owed + OwedFrom(calls, i, answered) == OwedFrom(calls, 0, answered)
      invariant positions == PositionsUpTo(calls, i)
    {
      var d := Decode(calls[i].id);
      input' := input' + [FunctionCall(calls[i].name, d.callId, d.itemId, calls[i].arguments)];
      assert CallItems(calls[..i + 1]) == CallItems(calls[..i]) + [CallItem(calls[i])];
      positions := positions[d.callId := i];
      if d.callId !in answered {
        owed := owed + [Owed(d.callId, i)];
      }
    }
    assert calls[..|calls|] == calls;
  }

  /** convertMessagesToInput. */
  method ConvertMessagesToInput(messages: seq<Message>) returns (input: seq<Item>)
    ensures input == Plains(Converted(messages))
  {
    hide Plains, Emit, OwedAfter, PositionsAfter, Placeholders, Due, Left, Decode;
    input := [];
    var answered := CollectAnsweredCallIds(messages);
    var owed: seq<Owed>, positions: map<string, nat> := [], map[];
    for i := 0 to |messages|
      invariant input + Plains(Repair(messages[i..], owed, positions, answered)) == Plains(Converted(messages))
    {
      var msg := messages[i];
      assert messages[i..][0] == msg && messages[i..][1..] == messages[i + 1..];
      PlainsAppend(Emit(msg, owed, positions),
                   Repair(messages[i + 1..], OwedAfter(msg, owed, positions, answered), PositionsAfter(msg, positions), answered));
      input, owed, positions := ConvertRow(msg, input, owed, positions, answered);
    }
    AllDue(owed);
    assert messages[|messages|..] == [];
    input, owed := ReleaseOwed(input, owed, None);
  }

  /** An assistant row: its reasoning trail, then all its calls, then what it said. */
  method ReplayAssistant(input: seq<Item>, reasoning: seq<Reasoning>, calls: seq<Call>, said: Option<Content>, answered: set<string>)
    returns (input': seq<Item>, owed: seq<Owed>, positions: map<string, nat>)
    ensures input' == input + RowItems(Assistant(reasoning, calls, said))
    ensures owed == OwedFrom(calls, 0, answered) && positions == PositionsUpTo(calls, |calls|)
  {
    hide ReasoningItems, CallItems, Said, OwedFrom, PositionsUpTo, Decode;
    input' := input + ReasoningItems(reasoning);
    input', owed, positions := ReplayCalls(input', calls, answered);
    input' := input' + Said(said);
  }

  lemma EmitPlain(m: Message, owed: seq<Owed>, positions: map<string, nat>)
    ensures Plains(Emit(m, owed, positions)) ==
            if m.System? then [] else Plains(Placeholders(Due(owed, Bound(m, positions)))) + RowItems(m)
  {
    if !m.System? {
      PlainsAppend(Placeholders(Due(owed, Bound(m, positions))), Reals(RowItems(m)));
      assert Plains(Reals(RowItems(m))) == RowItems(m);
    }
  }

  /** The body of the row loop. */
  method ConvertRow(msg: Message, input: seq<Item>, owed: seq<Owed>, positions: map<string, nat>, answered: set<string>)
    returns (input': seq<Item>, owed': seq<Owed>, positions': map<string, nat>)
    ensures input' == input + Plains(Emit(msg, owed, positions))
    ensures owed' == OwedAfter(msg, owed, positions, answered) && positions' == PositionsAfter(msg, positions)
  {
    input', owed', positions' := input, owed, positions;
    EmitPlain(msg, owed, positions);
    AllDue(owed);
    hide Plains, Placeholders, Due, Left, OwedFrom, PositionsUpTo, Decode, Emit, RowItems, UserParts;
    if msg.System? { return; }
    if msg.Tool? {
      input', owed' := ReleaseOwed(input', owed', Bound(msg, positions'));
      input' := PushTool(input', msg);
      return;
    }
    input', owed' := ReleaseOwed(input', owed', None);
    if msg.User? {
      input' := PushUser(input', msg);
    } else {
      input', owed', positions' := ReplayAssistant(input', msg.reasoning, msg.calls, msg.said, answered);
    }
  }

  method PushUser(input: seq<Item>, msg: Message) returns (input': seq<Item>)
    requires msg.User?
    ensures input' == input + RowItems(msg)
  {
    input' := input + [UserMessage(UserParts(msg.content))];
  }

  method PushTool(input: seq<Item>, msg: Message) returns (input': seq<Item>)
    requires msg.Tool?
    ensures input' == input + RowItems(msg)
  {
    input' := input + [ToolItem(msg)];
  }
}
