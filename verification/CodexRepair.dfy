/**
 What orphan repair guarantees about the converted transcript: nothing is lost or
 reordered, every call is answered exactly once and after it was made, and the outputs
 of one assistant row come out in the order of its calls.
 */
module CodexRepair {
  import opened Wrappers
  import opened CodexConvert

  // ---- nothing is lost ----

  /** The emitted items that are not placeholders, in order. */
  function RealItems(es: seq<Emitted>): seq<Item> {
    if es == [] then []
    else (if es[0].Real? then [es[0].item] else []) + RealItems(es[1..])
  }

  lemma {:induction false} RealItemsAppend(es: seq<Emitted>, fs: seq<Emitted>)
    ensures RealItems(es + fs) == RealItems(es) + RealItems(fs)
  {
    if es == [] {
      assert es + fs == fs;
    } else {
      RealItemsAppend(es[1..], fs);
      assert (es + fs)[1..] == es[1..] + fs;
    }
  }

  lemma {:induction false} NoRealPlaceholders(owed: seq<Owed>)
    ensures RealItems(Placeholders(owed)) == []
  {
    if owed != [] {
      NoRealPlaceholders(owed[1..]);
      assert Placeholders(owed)[1..] == Placeholders(owed[1..]);
    }
  }

  lemma {:induction false} RealsAreReal(items: seq<Item>)
    ensures RealItems(Reals(items)) == items
  {
    if items != [] {
      RealsAreReal(items[1..]);
      assert Reals(items)[1..] == Reals(items[1..]);
      assert [items[0]] + items[1..] == items;
    }
  }

  lemma EmitIsRow(m: Message, owed: seq<Owed>, positions: map<string, nat>)
    ensures RealItems(Emit(m, owed, positions)) == RowItems(m)
  {
    NoRealPlaceholders(Due(owed, Bound(m, positions)));
    RealsAreReal(RowItems(m));
    RealItemsAppend(Placeholders(Due(owed, Bound(m, positions))), Reals(RowItems(m)));
  }

  /** Deleting the placeholders leaves exactly the row-by-row conversion, for every transcript. */
  lemma {:induction false} RepairIsLossless(ms: seq<Message>, owed: seq<Owed>, positions: map<string, nat>, answered: set<string>)
    ensures RealItems(Repair(ms, owed, positions, answered)) == RowByRow(ms)
    decreases |ms|
  {
    if ms == [] {
      NoRealPlaceholders(owed);
    } else {
      var rest := Repair(ms[1..], OwedAfter(ms[0], owed, positions, answered), PositionsAfter(ms[0], positions), answered);
      EmitIsRow(ms[0], owed, positions);
      RealItemsAppend(Emit(ms[0], owed, positions), rest);
      RepairIsLossless(ms[1..], OwedAfter(ms[0], owed, positions, answered), PositionsAfter(ms[0], positions), answered);
    }
  }

  lemma ConversionIsLossless(ms: seq<Message>)
    ensures RealItems(Converted(ms)) == RowByRow(ms)
  {
    RepairIsLossless(ms, [], map[], Answered(ms));
  }

  // ---- every call is answered once ----

  function One(b: bool): nat { if b then 1 else 0 }

  predicate IsOutput(item: Item, c: string) { item.FunctionCallOutput? && item.callId == c }

  predicate IsCall(item: Item, c: string) { item.FunctionCall? && item.callId == c }

  function Outputs(es: seq<Emitted>, c: string): nat {
    if es == [] then 0 else One(IsOutput(Plain(es[0]), c)) + Outputs(es[1..], c)
  }

  function Calls(es: seq<Emitted>, c: string): nat {
    if es == [] then 0 else One(IsCall(Plain(es[0]), c)) + Calls(es[1..], c)
  }

  lemma {:induction false} CountAppend(es: seq<Emitted>, fs: seq<Emitted>, c: string)
    ensures Outputs(es + fs, c) == Outputs(es, c) + Outputs(fs, c)
    ensures Calls(es + fs, c) == Calls(es, c) + Calls(fs, c)
  {
    if es == [] {
      assert es + fs == fs;
    } else {
      CountAppend(es[1..], fs, c);
      assert (es + fs)[1..] == es[1..] + fs;
    }
  }

  /** How often c is made as a call, is answered by a tool row, and is owed. */
  function RowCalls(calls: seq<Call>, i: nat, c: string): nat
    requires i <= |calls|
    decreases |calls| - i
  {
    if i == |calls| then 0 else One(CallId(calls[i]) == c) + RowCalls(calls, i + 1, c)
  }

  function Made(ms: seq<Message>, c: string): nat {
    if ms == [] then 0 else (if ms[0].Assistant? then RowCalls(ms[0].calls, 0, c) else 0) + Made(ms[1..], c)
  }

  predicate Answers(m: Message, c: string) { m.Tool? && ToolItem(m).callId == c }

  function Answerings(ms: seq<Message>, c: string): nat {
    if ms == [] then 0 else One(Answers(ms[0], c)) + Answerings(ms[1..], c)
  }

  function OwedCount(owed: seq<Owed>, c: string): nat {
    if owed == [] then 0 else One(owed[0].callId == c) + OwedCount(owed[1..], c)
  }

  lemma {:induction false} PlaceholderCount(owed: seq<Owed>, c: string)
    ensures Outputs(Placeholders(owed), c) == OwedCount(owed, c) && Calls(Placeholders(owed), c) == 0
  {
    if owed != [] {
      PlaceholderCount(owed[1..], c);
      assert Placeholders(owed)[1..] == Placeholders(owed[1..]);
    }
  }

  lemma {:induction false} DueAndLeft(owed: seq<Owed>, before: Option<int>, c: string)
    ensures OwedCount(Due(owed, before), c) + OwedCount(Left(owed, before), c) == OwedCount(owed, c)
  {
    if owed != [] {
      DueAndLeft(owed[1..], before, c);
      assert ([owed[0]] + Due(owed[1..], before))[1..] == Due(owed[1..], before);
      assert ([owed[0]] + Left(owed[1..], before))[1..] == Left(owed[1..], before);
      assert [] + Due(owed[1..], before) == Due(owed[1..], before);
      assert [] + Left(owed[1..], before) == Left(owed[1..], before);
    }
  }

  lemma {:induction false} OwedFromCount(calls: seq<Call>, i: nat, answered: set<string>, c: string)
    requires i <= |calls|
    ensures OwedCount(OwedFrom(calls, i, answered), c) == if c in answered then 0 else RowCalls(calls, i, c)
    decreases |calls| - i
  {
    if i < |calls| {
      OwedFromCount(calls, i + 1, answered, c);
      var tail := OwedFrom(calls, i + 1, answered);
      assert ([Owed(CallId(calls[i]), i)] + tail)[1..] == tail;
      assert [] + tail == tail;
    }
  }

  lemma {:induction false} CallItemsCount(calls: seq<Call>, i: nat, c: string)
    requires i <= |calls|
    ensures Calls(Reals(CallItems(calls[i..])), c) == RowCalls(calls, i, c)
    ensures Outputs(Reals(CallItems(calls[i..])), c) == 0
    decreases |calls| - i
  {
    if i < |calls| {
      CallItemsCount(calls, i + 1, c);
      assert Reals(CallItems(calls[i..]))[1..] == Reals(CallItems(calls[i + 1..]));
      assert Reals(CallItems(calls[i..]))[0] == Real(CallItem(calls[i]));
    }
  }

  lemma {:induction false} QuietItems(items: seq<Item>, c: string)
    requires forall i :: 0 <= i < |items| ==> !items[i].FunctionCall? && !items[i].FunctionCallOutput?
    ensures Calls(Reals(items), c) == 0 && Outputs(Reals(items), c) == 0
  {
    if items != [] {
      QuietItems(items[1..], c);
      assert Reals(items)[1..] == Reals(items[1..]);
    }
  }

  /** What one row on its own adds to the two counts. */
  lemma RowCount(m: Message, c: string)
    ensures Calls(Reals(RowItems(m)), c) == if m.Assistant? then RowCalls(m.calls, 0, c) else 0
    ensures Outputs(Reals(RowItems(m)), c) == One(Answers(m, c))
  {
    match m
    case System =>
    case User(content) => QuietItems(RowItems(m), c);
    case Tool(_, _) => assert Reals(RowItems(m))[1..] == [];
    case Assistant(rs, calls, said) =>
      QuietItems(ReasoningItems(rs), c);
      QuietItems(Said(said), c);
      CallItemsCount(calls, 0, c);
      assert calls[0..] == calls;
      var r, k, s := Reals(ReasoningItems(rs)), Reals(CallItems(calls)), Reals(Said(said));
      assert Reals(RowItems(m)) == r + k + s;
      CountAppend(r + k, s, c);
      CountAppend(r, k, c);
  }

  lemma EmitCount(m: Message, owed: seq<Owed>, positions: map<string, nat>, answered: set<string>, c: string)
    ensures var made := if m.Assistant? then RowCalls(m.calls, 0, c) else 0;
            && Calls(Emit(m, owed, positions), c) == made
            && Outputs(Emit(m, owed, positions), c) + OwedCount(OwedAfter(m, owed, positions, answered), c)
               == OwedCount(owed, c) + One(Answers(m, c)) + if c in answered then 0 else made
  {
    if !m.System? {
      var due := Due(owed, Bound(m, positions));
      RowCount(m, c);
      PlaceholderCount(due, c);
      CountAppend(Placeholders(due), Reals(RowItems(m)), c);
      DueAndLeft(owed, Bound(m, positions), c);
      AllDue(owed);
      if m.Assistant? { OwedFromCount(m.calls, 0, answered, c); }
    }
  }

  /** Every id gets one output per tool row that answers it, and one per call when no tool row ever does. */
  lemma {:induction false} RepairCount(ms: seq<Message>, owed: seq<Owed>, positions: map<string, nat>, answered: set<string>, c: string)
    ensures Calls(Repair(ms, owed, positions, answered), c) == Made(ms, c)
    ensures Outputs(Repair(ms, owed, positions, answered), c)
            == OwedCount(owed, c) + Answerings(ms, c) + if c in answered then 0 else Made(ms, c)
    decreases |ms|
  {
    if ms == [] {
      PlaceholderCount(owed, c);
    } else {
      var owed', positions' := OwedAfter(ms[0], owed, positions, answered), PositionsAfter(ms[0], positions);
      EmitCount(ms[0], owed, positions, answered, c);
      RepairCount(ms[1..], owed', positions', answered, c);
      CountAppend(Emit(ms[0], owed, positions), Repair(ms[1..], owed', positions', answered), c);
    }
  }

  // ---- and after it was made ----

  /** The outputs the ordering claim covers: placeholders always, recorded outputs when `recorded` is set. */
  predicate Covered(e: Emitted, recorded: bool) {
    e.Placeholder? || (recorded && e.item.FunctionCallOutput?)
  }

  /** Every covered output of es comes after its call, counting what stands before es. */
  ghost predicate OutputsFollow(before: seq<Emitted>, es: seq<Emitted>, recorded: bool) {
    forall i :: 0 <= i < |es| && Covered(es[i], recorded) ==> Calls(before + es[..i], Plain(es[i]).callId) >= 1
  }

  ghost predicate AllMade(before: seq<Emitted>, owed: seq<Owed>) {
    forall i :: 0 <= i < |owed| ==> Calls(before, owed[i].callId) >= 1
  }

  /** Every tool row of ms answers a call made before it. */
  ghost predicate ToolsAnswer(before: seq<Emitted>, ms: seq<Message>) {
    forall i :: 0 <= i < |ms| && ms[i].Tool? ==>
      Calls(before, ToolItem(ms[i]).callId) + Made(ms[..i], ToolItem(ms[i]).callId) >= 1
  }

  lemma {:induction false} DueIsOwed(owed: seq<Owed>, before: Option<int>)
    ensures forall o :: o in Due(owed, before) ==> o in owed
    ensures forall o :: o in Left(owed, before) ==> o in owed
  {
    if owed != [] { DueIsOwed(owed[1..], before); }
  }

  lemma {:induction false} OwedIsMade(calls: seq<Call>, i: nat, answered: set<string>)
    requires i <= |calls|
    ensures forall o :: o in OwedFrom(calls, i, answered) ==> RowCalls(calls, i, o.callId) >= 1
    decreases |calls| - i
  {
    if i < |calls| { OwedIsMade(calls, i + 1, answered); }
  }

  lemma FollowAppend(before: seq<Emitted>, es: seq<Emitted>, fs: seq<Emitted>, recorded: bool)
    requires OutputsFollow(before, es, recorded) && OutputsFollow(before + es, fs, recorded)
    ensures OutputsFollow(before, es + fs, recorded)
  {
    forall i | 0 <= i < |es + fs| && Covered((es + fs)[i], recorded)
      ensures Calls(before + (es + fs)[..i], Plain((es + fs)[i]).callId) >= 1
    {
      if i < |es| {
        assert (es + fs)[..i] == es[..i];
      } else {
        assert before + (es + fs)[..i] == before + es + fs[..i - |es|];
      }
    }
  }

  lemma DueFollow(before: seq<Emitted>, owed: seq<Owed>, recorded: bool)
    requires AllMade(before, owed)
    ensures OutputsFollow(before, Placeholders(owed), recorded)
  {
    forall i | 0 <= i < |owed|
      ensures Calls(before + Placeholders(owed)[..i], owed[i].callId) >= 1
    {
      CountAppend(before, Placeholders(owed)[..i], owed[i].callId);
    }
  }

  /** Only a tool row's own item is a recorded output. */
  lemma RowFollows(before: seq<Emitted>, due: seq<Emitted>, m: Message, recorded: bool)
    requires recorded && m.Tool? ==> Calls(before, ToolItem(m).callId) >= 1
    ensures OutputsFollow(before + due, Reals(RowItems(m)), recorded)
  {
    if m.Tool? {
      CountAppend(before, due, ToolItem(m).callId);
      assert before + due + Reals(RowItems(m))[..0] == before + due;
    }
  }

  lemma EmitFollows(before: seq<Emitted>, m: Message, owed: seq<Owed>, positions: map<string, nat>, recorded: bool)
    requires AllMade(before, owed)
    requires recorded && m.Tool? ==> Calls(before, ToolItem(m).callId) >= 1
    ensures OutputsFollow(before, Emit(m, owed, positions), recorded)
  {
    var due := Due(owed, Bound(m, positions));
    DueIsOwed(owed, Bound(m, positions));
    if !m.System? {
      assert AllMade(before, due) by {
        forall i | 0 <= i < |due| ensures Calls(before, due[i].callId) >= 1 {
          assert due[i] in due;
        }
      }
      DueFollow(before, due, recorded);
      RowFollows(before, Placeholders(due), m, recorded);
      FollowAppend(before, Placeholders(due), Reals(RowItems(m)), recorded);
    }
  }

  lemma OwedStaysMade(before: seq<Emitted>, m: Message, owed: seq<Owed>, positions: map<string, nat>, answered: set<string>)
    requires AllMade(before, owed)
    ensures AllMade(before + Emit(m, owed, positions), OwedAfter(m, owed, positions, answered))
  {
    var emitted, after := Emit(m, owed, positions), OwedAfter(m, owed, positions, answered);
    DueIsOwed(owed, Bound(m, positions));
    if m.Assistant? { OwedIsMade(m.calls, 0, answered); }
    forall i | 0 <= i < |after|
      ensures Calls(before + emitted, after[i].callId) >= 1
    {
      assert after[i] in after;
      EmitCount(m, owed, positions, answered, after[i].callId);
      CountAppend(before, emitted, after[i].callId);
    }
  }

  lemma ToolsStillAnswer(before: seq<Emitted>, ms: seq<Message>, owed: seq<Owed>, positions: map<string, nat>)
    requires ms != [] && ToolsAnswer(before, ms)
    ensures ms[0].Tool? ==> Calls(before, ToolItem(ms[0]).callId) >= 1
    ensures ToolsAnswer(before + Emit(ms[0], owed, positions), ms[1..])
  {
    var emitted := Emit(ms[0], owed, positions);
    if ms[0].Tool? { assert ms[..0] == []; }
    forall i | 0 <= i < |ms[1..]| && ms[1..][i].Tool?
      ensures Calls(before + emitted, ToolItem(ms[1..][i]).callId) + Made(ms[1..][..i], ToolItem(ms[1..][i]).callId) >= 1
    {
      var c := ToolItem(ms[1 + i]).callId;
      assert ms[..1 + i][1..] == ms[1..][..i];
      EmitCount(ms[0], owed, positions, {}, c);
      CountAppend(before, emitted, c);
    }
  }

  /**
   For every transcript each placeholder follows its call, and when each tool row answers an
   earlier call so does each recorded output.
   */
  lemma {:induction false} RepairFollows(before: seq<Emitted>, ms: seq<Message>, owed: seq<Owed>, positions: map<string, nat>,
                                         answered: set<string>, recorded: bool)
    requires AllMade(before, owed)
    requires recorded ==> ToolsAnswer(before, ms)
    ensures OutputsFollow(before, Repair(ms, owed, positions, answered), recorded)
    decreases |ms|
  {
    hide Emit, OwedAfter, PositionsAfter, OutputsFollow, AllMade, ToolsAnswer;
    if ms == [] {
      DueFollow(before, owed, recorded);
    } else {
      var owed', positions' := OwedAfter(ms[0], owed, positions, answered), PositionsAfter(ms[0], positions);
      var emitted := Emit(ms[0], owed, positions);
      if recorded { ToolsStillAnswer(before, ms, owed, positions); }
      EmitFollows(before, ms[0], owed, positions, recorded);
      OwedStaysMade(before, ms[0], owed, positions, answered);
      RepairFollows(before + emitted, ms[1..], owed', positions', answered, recorded);
      FollowAppend(before, emitted, Repair(ms[1..], owed', positions', answered), recorded);
    }
  }

  // ---- whole transcripts ----

  /** Distinct non-empty call ids, and each tool row answering an earlier call that no other row answers. */
  ghost predicate WellFormed(ms: seq<Message>) {
    && Made(ms, "") == 0
    && (forall c :: Made(ms, c) <= 1)
    && (forall c :: Answerings(ms, c) <= 1)
    && ToolsAnswer([], ms)
  }

  lemma {:induction false} MadeUpTo(ms: seq<Message>, i: nat, c: string)
    requires i <= |ms|
    ensures Made(ms[..i], c) <= Made(ms, c)
  {
    if i > 0 {
      assert ms[..i][1..] == ms[1..][..i - 1];
      MadeUpTo(ms[1..], i - 1, c);
    }
  }

  lemma {:induction false} AnsweringRow(ms: seq<Message>, c: string) returns (i: nat)
    requires Answerings(ms, c) >= 1
    ensures i < |ms| && Answers(ms[i], c)
  {
    if Answers(ms[0], c) {
      i := 0;
    } else {
      var k := AnsweringRow(ms[1..], c);
      i := k + 1;
    }
  }

  lemma {:induction false} AnsweredOnce(ms: seq<Message>, i: nat, c: string)
    requires i < |ms| && Answers(ms[i], c)
    ensures Answerings(ms, c) >= 1
  {
    if i > 0 { AnsweredOnce(ms[1..], i - 1, c); }
  }

  lemma {:induction false} MadeIdsHaveNoBar(ms: seq<Message>, c: string)
    requires Made(ms, c) >= 1
    ensures '|' !in c
  {
    if ms[0].Assistant? && RowCalls(ms[0].calls, 0, c) >= 1 {
      RowIdsHaveNoBar(ms[0].calls, 0, c);
    } else {
      MadeIdsHaveNoBar(ms[1..], c);
    }
  }

  lemma {:induction false} RowIdsHaveNoBar(calls: seq<Call>, i: nat, c: string)
    requires i <= |calls| && RowCalls(calls, i, c) >= 1
    ensures '|' !in c
    decreases |calls| - i
  {
    if CallId(calls[i]) != c { RowIdsHaveNoBar(calls, i + 1, c); }
  }

  /** In a well-formed transcript the ids tool rows answer are exactly the answered set, and all were made. */
  lemma AnsweringsAreAnswered(ms: seq<Message>, c: string)
    requires WellFormed(ms)
    ensures Answerings(ms, c) == One(c in Answered(ms))
    ensures c in Answered(ms) ==> Made(ms, c) == 1
  {
    if Answerings(ms, c) >= 1 {
      var i := AnsweringRow(ms, c);
      MadeUpTo(ms, i, c);
      MadeIdsHaveNoBar(ms, c);
      assert ms[i] in ms;
      if Decode(ms[i].toolCallId).callId == "" { BlankIdStartsWithBar(ms[i]); }
    }
    if c in Answered(ms) {
      var m :| m in ms && m.Tool? && Decode(m.toolCallId).callId == c != "";
      var i :| 0 <= i < |ms| && ms[i] == m;
      AnsweredOnce(ms, i, c);
    }
  }

  lemma BlankIdStartsWithBar(m: Message)
    requires m.Tool? && Decode(m.toolCallId).callId == ""
    ensures m.toolCallId == "" || '|' in m.toolCallId
  {
  }

  lemma {:induction false} SomeOutput(es: seq<Emitted>, c: string) returns (j: nat)
    requires Outputs(es, c) >= 1
    ensures j < |es| && IsOutput(Plain(es[j]), c)
  {
    if IsOutput(Plain(es[0]), c) {
      j := 0;
    } else {
      var k := SomeOutput(es[1..], c);
      j := k + 1;
    }
  }

  lemma {:induction false} TwoOutputs(es: seq<Emitted>, i: nat, j: nat, c: string)
    requires i < j < |es| && IsOutput(Plain(es[i]), c) && IsOutput(Plain(es[j]), c)
    ensures Outputs(es, c) >= 2
  {
    if i > 0 {
      TwoOutputs(es[1..], i - 1, j - 1, c);
    } else {
      OneOutput(es[1..], j - 1, c);
    }
  }

  lemma {:induction false} OneOutput(es: seq<Emitted>, j: nat, c: string)
    requires j < |es| && IsOutput(Plain(es[j]), c)
    ensures Outputs(es, c) >= 1
  {
    if j > 0 { OneOutput(es[1..], j - 1, c); }
  }

  lemma {:induction false} CallAt(es: seq<Emitted>, k: nat, c: string)
    requires k < |es| && IsCall(Plain(es[k]), c)
    ensures Calls(es, c) >= 1
  {
    if k > 0 { CallAt(es[1..], k - 1, c); }
  }

  /** The call counted before position j of es is the one at k, so k comes first. */
  lemma CallComesFirst(es: seq<Emitted>, k: nat, j: nat, c: string)
    requires k < |es| && j < |es| && IsCall(Plain(es[k]), c) && Calls(es, c) <= 1
    requires Calls(es[..j], c) >= 1
    ensures k < j
  {
    if j <= k {
      CountAppend(es[..j], es[j..], c);
      assert es[..j] + es[j..] == es;
      CallAt(es[j..], k - j, c);
    }
  }

  /** The output of a call: after it, and the only one with its id. */
  ghost predicate AnswersOnlyCall(input: seq<Item>, k: nat, j: nat)
    requires k < |input| && input[k].FunctionCall?
  {
    && k < j < |input|
    && forall i :: 0 <= i < |input| ==> (IsOutput(input[i], input[k].callId) <==> i == j)
  }

  /** Counts over the whole conversion: one output for each call, none without. */
  lemma OneOutputPerCall(ms: seq<Message>, c: string)
    requires WellFormed(ms)
    ensures Calls(Converted(ms), c) == Outputs(Converted(ms), c) == Made(ms, c) <= 1
  {
    RepairCount(ms, [], map[], Answered(ms), c);
    AnsweringsAreAnswered(ms, c);
  }

  /** Every replayed call is followed by exactly one output with its id, and no output stands alone. */
  lemma EveryCallIsAnsweredOnce(ms: seq<Message>)
    requires WellFormed(ms)
    ensures var input := Plains(Converted(ms));
            && (forall k: nat :: k < |input| && input[k].FunctionCall? ==> exists j: nat :: AnswersOnlyCall(input, k, j))
            && (forall c :: Outputs(Converted(ms), c) == Calls(Converted(ms), c) == Made(ms, c))
  {
    hide Converted, WellFormed;
    var es, input := Converted(ms), Plains(Converted(ms));
    forall c ensures Outputs(es, c) == Calls(es, c) == Made(ms, c) {
      OneOutputPerCall(ms, c);
    }
    forall k: nat | k < |input| && input[k].FunctionCall?
      ensures exists j: nat :: AnswersOnlyCall(input, k, j)
    {
      var j := OutputOfCall(ms, k);
      assert AnswersOnlyCall(input, k, j);
    }
  }

  lemma ConvertedFollows(ms: seq<Message>)
    requires WellFormed(ms)
    ensures OutputsFollow([], Converted(ms), true)
  {
    RepairFollows([], ms, [], map[], Answered(ms), true);
  }

  lemma OutputOfCall(ms: seq<Message>, k: nat) returns (j: nat)
    requires WellFormed(ms) && k < |Converted(ms)| && Plain(Converted(ms)[k]).FunctionCall?
    ensures AnswersOnlyCall(Plains(Converted(ms)), k, j)
  {
    hide Converted, WellFormed;
    var es := Converted(ms);
    var c := Plain(es[k]).callId;
    OneOutputPerCall(ms, c);
    CallAt(es, k, c);
    j := SomeOutput(es, c);
    ConvertedFollows(ms);
    assert [] + es[..j] == es[..j];
    CallComesFirst(es, k, j, c);
    forall i | 0 <= i < |es| && IsOutput(Plain(es[i]), c) ensures i == j {
      if i < j { TwoOutputs(es, i, j, c); }
      if j < i { TwoOutputs(es, j, i, c); }
    }
  }

  // ---- told apart without the tags ----

  /** The items with every output for an id no tool row answers taken out. */
  function WithoutUnanswered(items: seq<Item>, answered: set<string>): seq<Item> {
    if items == [] then []
    else (if items[0].FunctionCallOutput? && items[0].callId !in answered then [] else [items[0]])
           + WithoutUnanswered(items[1..], answered)
  }

  /** A placeholder's id is unanswered, a recorded output's is answered. */
  ghost predicate TagsShow(es: seq<Emitted>, answered: set<string>) {
    forall e :: e in es ==> match e
      case Placeholder(c) => c !in answered
      case Real(item) => item.FunctionCallOutput? ==> item.callId in answered
  }

  lemma {:induction false} FilterFindsReal(es: seq<Emitted>, answered: set<string>)
    requires TagsShow(es, answered)
    ensures WithoutUnanswered(Plains(es), answered) == RealItems(es)
  {
    if es != [] {
      assert es[0] in es && (forall e :: e in es[1..] ==> e in es);
      FilterFindsReal(es[1..], answered);
      assert Plains(es)[1..] == Plains(es[1..]);
    }
  }

  ghost predicate Unanswered(owed: seq<Owed>, answered: set<string>) {
    forall o :: o in owed ==> o.callId !in answered
  }

  lemma {:induction false} OwedFromUnanswered(calls: seq<Call>, i: nat, answered: set<string>)
    requires i <= |calls|
    ensures Unanswered(OwedFrom(calls, i, answered), answered)
    decreases |calls| - i
  {
    hide CallId;
    if i < |calls| { OwedFromUnanswered(calls, i + 1, answered); }
  }

  lemma PlaceholdersShow(owed: seq<Owed>, answered: set<string>)
    requires Unanswered(owed, answered)
    ensures TagsShow(Placeholders(owed), answered)
  {
    forall e | e in Placeholders(owed) ensures e.Placeholder? && e.callId !in answered {
      var i :| 0 <= i < |owed| && e == Placeholder(owed[i].callId);
      assert owed[i] in owed;
    }
  }

  lemma RowShows(m: Message, answered: set<string>)
    requires m.Tool? ==> ToolItem(m).callId in answered
    ensures TagsShow(Reals(RowItems(m)), answered)
  {
    hide CallId, ConvertPart, UserParts, Decode, ToolItem;
  }

  lemma EmitShows(m: Message, owed: seq<Owed>, positions: map<string, nat>, answered: set<string>)
    requires Unanswered(owed, answered)
    requires m.Tool? ==> ToolItem(m).callId in answered
    ensures TagsShow(Emit(m, owed, positions), answered)
  {
    hide Reals, RowItems, Placeholders, ToolItem, Decode;
    DueIsOwed(owed, Bound(m, positions));
    PlaceholdersShow(Due(owed, Bound(m, positions)), answered);
    RowShows(m, answered);
  }

  lemma OwedStaysUnanswered(m: Message, owed: seq<Owed>, positions: map<string, nat>, answered: set<string>)
    requires Unanswered(owed, answered)
    ensures Unanswered(OwedAfter(m, owed, positions, answered), answered)
  {
    hide Bound;
    DueIsOwed(owed, Bound(m, positions));
    if m.Assistant? { OwedFromUnanswered(m.calls, 0, answered); }
  }

  lemma {:induction false} RepairShows(ms: seq<Message>, owed: seq<Owed>, positions: map<string, nat>, answered: set<string>)
    requires Unanswered(owed, answered)
    requires forall m :: m in ms && m.Tool? ==> ToolItem(m).callId in answered
    ensures TagsShow(Repair(ms, owed, positions, answered), answered)
    decreases |ms|
  {
    hide Decode, ToolItem, Emit, OwedAfter, PositionsAfter;
    if ms != [] {
      assert ms[0] in ms && (forall m :: m in ms[1..] ==> m in ms);
      EmitShows(ms[0], owed, positions, answered);
      OwedStaysUnanswered(ms[0], owed, positions, answered);
      RepairShows(ms[1..], OwedAfter(ms[0], owed, positions, answered), PositionsAfter(ms[0], positions), answered);
    }
  }

  /** In the converted input itself: drop the outputs of calls no tool row answers and the row-by-row conversion is left. */
  lemma DroppingPlaceholdersRestoresRows(ms: seq<Message>)
    requires WellFormed(ms)
    ensures WithoutUnanswered(Plains(Converted(ms)), Answered(ms)) == RowByRow(ms)
  {
    forall m | m in ms && m.Tool?
      ensures ToolItem(m).callId in Answered(ms)
    {
      var i :| 0 <= i < |ms| && ms[i] == m;
      var c := ToolItem(m).callId;
      MadeUpTo(ms, i, c);
      MadeIdsHaveNoBar(ms, c);
      if Decode(m.toolCallId).callId == "" { BlankIdStartsWithBar(m); }
    }
    RepairShows(ms, [], map[], Answered(ms));
    FilterFindsReal(Converted(ms), Answered(ms));
    ConversionIsLossless(ms);
  }
}
