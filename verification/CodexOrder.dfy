/**
 Where orphan repair puts things: an assistant row's calls stay together, its outputs, real
 and placeholder, come right after it, and they keep the order of its calls.
 */
module CodexOrder {
  import opened Wrappers
  import opened CodexConvert
  import opened CodexRepair

  // ---- splitting a conversion at a row ----

  /** What rows emit without the release at the very end. */
  function EmitAll(ms: seq<Message>, owed: seq<Owed>, positions: map<string, nat>, answered: set<string>): seq<Emitted> {
    if ms == [] then []
    else Emit(ms[0], owed, positions)
           + EmitAll(ms[1..], OwedAfter(ms[0], owed, positions, answered), PositionsAfter(ms[0], positions), answered)
  }

  function OwedAfterAll(ms: seq<Message>, owed: seq<Owed>, positions: map<string, nat>, answered: set<string>): seq<Owed> {
    if ms == [] then owed
    else OwedAfterAll(ms[1..], OwedAfter(ms[0], owed, positions, answered), PositionsAfter(ms[0], positions), answered)
  }

  function PositionsAfterAll(ms: seq<Message>, positions: map<string, nat>): map<string, nat> {
    if ms == [] then positions else PositionsAfterAll(ms[1..], PositionsAfter(ms[0], positions))
  }

  lemma {:induction false} RepairSplit(ms: seq<Message>, rest: seq<Message>, owed: seq<Owed>, positions: map<string, nat>,
                                       answered: set<string>)
    ensures Repair(ms + rest, owed, positions, answered)
            == EmitAll(ms, owed, positions, answered)
               + Repair(rest, OwedAfterAll(ms, owed, positions, answered), PositionsAfterAll(ms, positions), answered)
    decreases |ms|
  {
    hide Emit, OwedAfter, PositionsAfter;
    if ms == [] {
      assert ms + rest == rest;
    } else {
      assert (ms + rest)[0] == ms[0] && (ms + rest)[1..] == ms[1..] + rest;
      RepairSplit(ms[1..], rest, OwedAfter(ms[0], owed, positions, answered), PositionsAfter(ms[0], positions), answered);
    }
  }

  /** A user or assistant row releases everything that is owed before it says anything. */
  lemma ReleasingRow(m: Message, owed: seq<Owed>, positions: map<string, nat>, answered: set<string>)
    requires m.User? || m.Assistant?
    ensures Emit(m, owed, positions) == Placeholders(owed) + Emit(m, [], positions)
    ensures OwedAfter(m, owed, positions, answered) == OwedAfter(m, [], positions, answered)
  {
    hide Due, Left, RowItems, OwedFrom;
    AllDue(owed);
    AllDue([]);
    assert Placeholders([]) + Reals(RowItems(m)) == Reals(RowItems(m));
  }

  /** So does the end: nothing stays owed across either. */
  lemma ReleaseSplit(rest: seq<Message>, owed: seq<Owed>, positions: map<string, nat>, answered: set<string>)
    requires rest == [] || rest[0].User? || rest[0].Assistant?
    ensures Repair(rest, owed, positions, answered) == Placeholders(owed) + Repair(rest, [], positions, answered)
  {
    hide Emit, OwedAfter, PositionsAfter;
    if rest == [] {
      EndReleases(owed, positions, answered);
      EndReleases([], positions, answered);
      assert Placeholders(owed) + Placeholders([]) == Placeholders(owed);
    } else {
      ReleasingRow(rest[0], owed, positions, answered);
      RepairStep(rest, owed, positions, answered);
      RepairStep(rest, [], positions, answered);
    }
  }

  lemma RepairStep(ms: seq<Message>, owed: seq<Owed>, positions: map<string, nat>, answered: set<string>)
    requires ms != []
    ensures Repair(ms, owed, positions, answered)
            == Emit(ms[0], owed, positions)
               + Repair(ms[1..], OwedAfter(ms[0], owed, positions, answered), PositionsAfter(ms[0], positions), answered)
  {
    hide Emit, OwedAfter, PositionsAfter;
  }

  lemma EndReleases(owed: seq<Owed>, positions: map<string, nat>, answered: set<string>)
    ensures Repair([], owed, positions, answered) == Placeholders(owed)
  {
  }

  // ---- one assistant row and its outputs ----

  /** A run of rows that can carry one assistant row's outputs: tool rows, and system rows which are skipped. */
  predicate OnlyTools(ms: seq<Message>) {
    forall i :: 0 <= i < |ms| ==> ms[i].Tool? || ms[i].System?
  }

  /** The outputs that follow an assistant row, up to the next user or assistant row. */
  function Block(calls: seq<Call>, tools: seq<Message>, answered: set<string>): seq<Emitted> {
    Repair(tools, OwedFrom(calls, 0, answered), PositionsUpTo(calls, |calls|), answered)
  }

  /** Everything before an assistant row, with what earlier rows still owed. */
  function Lead(before: seq<Message>, answered: set<string>): seq<Emitted> {
    EmitAll(before, [], map[], answered) + Placeholders(OwedAfterAll(before, [], map[], answered))
  }

  lemma AssistantOpens(before: seq<Message>, row: Message, more: seq<Message>, answered: set<string>)
    requires row.Assistant?
    ensures Repair(before + ([row] + more), [], map[], answered)
            == Lead(before, answered) + Reals(RowItems(row))
               + Repair(more, OwedFrom(row.calls, 0, answered), PositionsUpTo(row.calls, |row.calls|), answered)
  {
    hide Repair, EmitAll, OwedFrom, PositionsUpTo, RowItems;
    var owed, positions := OwedAfterAll(before, [], map[], answered), PositionsAfterAll(before, map[]);
    RepairSplit(before, [row] + more, [], map[], answered);
    ReleaseSplit([row] + more, owed, positions, answered);
    AssistantStep(row, more, positions, answered);
  }

  lemma AssistantStep(row: Message, more: seq<Message>, positions: map<string, nat>, answered: set<string>)
    requires row.Assistant?
    ensures Repair([row] + more, [], positions, answered)
            == Reals(RowItems(row))
               + Repair(more, OwedFrom(row.calls, 0, answered), PositionsUpTo(row.calls, |row.calls|), answered)
  {
    hide RowItems, OwedFrom, PositionsUpTo;
    var rows := [row] + more;
    assert rows[0] == row && rows[1..] == more;
    AllDue([]);
    assert Placeholders([]) == [];
    assert Emit(row, [], positions) == Reals(RowItems(row));
  }

  /** Where the row's turn ends, its own block is complete and the rest starts owing nothing. */
  lemma BlockCloses(tools: seq<Message>, rest: seq<Message>, owed: seq<Owed>, positions: map<string, nat>, answered: set<string>)
    requires rest == [] || rest[0].User? || rest[0].Assistant?
    ensures Repair(tools + rest, owed, positions, answered)
            == Repair(tools, owed, positions, answered) + Repair(rest, [], PositionsAfterAll(tools, positions), answered)
  {
    hide Repair, EmitAll, OwedAfterAll;
    RepairSplit(tools, rest, owed, positions, answered);
    RepairSplit(tools, [], owed, positions, answered);
    assert tools + [] == tools;
    var left := OwedAfterAll(tools, owed, positions, answered);
    ReleaseSplit(rest, left, PositionsAfterAll(tools, positions), answered);
    EndReleases(left, PositionsAfterAll(tools, positions), answered);
  }

  /** Every element of a block is an output. */
  lemma {:induction false} BlockIsOutputs(tools: seq<Message>, owed: seq<Owed>, positions: map<string, nat>, answered: set<string>)
    requires OnlyTools(tools)
    ensures forall e :: e in Repair(tools, owed, positions, answered) ==> Plain(e).FunctionCallOutput?
    decreases |tools|
  {
    if tools != [] {
      BlockIsOutputs(tools[1..], OwedAfter(tools[0], owed, positions, answered), PositionsAfter(tools[0], positions), answered);
    }
  }

  // ---- order inside a block ----

  predicate DistinctIds(calls: seq<Call>) {
    forall i, j :: 0 <= i < j < |calls| ==> CallId(calls[i]) != CallId(calls[j])
  }

  /** Where the call an emitted output belongs to sits in its row. */
  function Position(e: Emitted, positions: map<string, nat>): int {
    var item := Plain(e);
    if item.FunctionCallOutput? && item.callId in positions then positions[item.callId] else -1
  }

  /** The outputs stand at call positions from lo on, strictly in call order. */
  predicate InCallOrder(es: seq<Emitted>, positions: map<string, nat>, lo: int) {
    && (forall i :: 0 <= i < |es| ==> Position(es[i], positions) >= lo)
    && (forall i, j :: 0 <= i < j < |es| ==> Position(es[i], positions) < Position(es[j], positions))
  }

  /** The tool rows answer the row's calls in call order, from position lo on. */
  predicate AnswersInOrder(tools: seq<Message>, positions: map<string, nat>, lo: int) {
    tools == [] ||
    if !tools[0].Tool? then AnswersInOrder(tools[1..], positions, lo)
    else
      var c := Decode(tools[0].toolCallId).callId;
      c != "" && c in positions && positions[c] >= lo && AnswersInOrder(tools[1..], positions, positions[c] + 1)
  }

  /** What is owed is unanswered, at its own call's position, and in call order. */
  ghost predicate OwedInOrder(owed: seq<Owed>, positions: map<string, nat>, answered: set<string>, lo: int) {
    && (forall i :: 0 <= i < |owed| ==> owed[i].callId in positions && positions[owed[i].callId] == owed[i].position >= lo)
    && (forall i :: 0 <= i < |owed| ==> owed[i].callId !in answered)
    && (forall i, j :: 0 <= i < j < |owed| ==> owed[i].position < owed[j].position)
  }

  ghost predicate Injective(positions: map<string, nat>) {
    forall c, d :: c in positions && d in positions && positions[c] == positions[d] ==> c == d
  }

  /** Every noted position holds the call it was noted for, and distinct calls are noted where they stand. */
  ghost predicate PointAtCalls(calls: seq<Call>, i: nat, ps: map<string, nat>)
    requires i <= |calls|
  {
    && (forall c :: c in ps ==> ps[c] < i && CallId(calls[ps[c]]) == c)
    && (DistinctIds(calls) ==> forall k :: 0 <= k < i ==> CallId(calls[k]) in ps && ps[CallId(calls[k])] == k)
  }

  lemma NoteCall(calls: seq<Call>, i: nat, ps: map<string, nat>)
    requires i < |calls| && PointAtCalls(calls, i, ps)
    ensures PointAtCalls(calls, i + 1, ps[CallId(calls[i]) := i])
  {
    hide CallId;
  }

  lemma {:induction false} PositionsAreCalls(calls: seq<Call>, i: nat)
    requires i <= |calls|
    ensures PointAtCalls(calls, i, PositionsUpTo(calls, i))
  {
    hide CallId;
    if i > 0 {
      PositionsAreCalls(calls, i - 1);
      NoteCall(calls, i - 1, PositionsUpTo(calls, i - 1));
    }
  }

  lemma OwedCons(o: Owed, owed: seq<Owed>, positions: map<string, nat>, answered: set<string>, lo: int)
    requires OwedInOrder(owed, positions, answered, o.position + 1) && lo <= o.position
    requires o.callId in positions && positions[o.callId] == o.position && o.callId !in answered
    ensures OwedInOrder([o] + owed, positions, answered, lo)
  {
  }

  lemma OwedWeaken(owed: seq<Owed>, positions: map<string, nat>, answered: set<string>, lo: int, hi: int)
    requires OwedInOrder(owed, positions, answered, hi) && lo <= hi
    ensures OwedInOrder(owed, positions, answered, lo)
  {
  }

  lemma NothingOwed(positions: map<string, nat>, answered: set<string>, lo: int)
    ensures OwedInOrder([], positions, answered, lo)
  {
  }

  lemma OwedTail(owed: seq<Owed>, positions: map<string, nat>, answered: set<string>, lo: int)
    requires owed != [] && OwedInOrder(owed, positions, answered, lo)
    ensures OwedInOrder(owed[1..], positions, answered, owed[0].position + 1)
    ensures owed[0].callId in positions && lo <= positions[owed[0].callId] == owed[0].position && owed[0].callId !in answered
  {
  }

  lemma OwedFromStep(calls: seq<Call>, i: nat, answered: set<string>, tail: seq<Owed>)
    requires i < |calls| && tail == OwedFrom(calls, i + 1, answered)
    ensures OwedFrom(calls, i, answered)
            == if CallId(calls[i]) in answered then tail else [Owed(CallId(calls[i]), i)] + tail
  {
    hide CallId;
  }

  lemma OwedHere(calls: seq<Call>, i: nat, tail: seq<Owed>, positions: map<string, nat>, answered: set<string>)
    requires i < |calls| && DistinctIds(calls) && PointAtCalls(calls, |calls|, positions)
    requires OwedInOrder(tail, positions, answered, i + 1)
    ensures CallId(calls[i]) in answered ==> OwedInOrder(tail, positions, answered, i)
    ensures CallId(calls[i]) !in answered ==> OwedInOrder([Owed(CallId(calls[i]), i)] + tail, positions, answered, i)
  {
    hide OwedInOrder, CallId;
    OwedWeaken(tail, positions, answered, i, i + 1);
    if CallId(calls[i]) !in answered {
      OwedCons(Owed(CallId(calls[i]), i), tail, positions, answered, i);
    }
  }

  lemma {:induction false} OwedFromInOrder(calls: seq<Call>, i: nat, answered: set<string>)
    requires i <= |calls| && DistinctIds(calls)
    ensures OwedInOrder(OwedFrom(calls, i, answered), PositionsUpTo(calls, |calls|), answered, i)
    decreases |calls| - i
  {
    hide PointAtCalls, PositionsUpTo, CallId, DistinctIds;
    if i < |calls| {
      OwedFromInOrder(calls, i + 1, answered);
      OwedFromStep(calls, i, answered, OwedFrom(calls, i + 1, answered));
      PositionsAreCalls(calls, |calls|);
      OwedHere(calls, i, OwedFrom(calls, i + 1, answered), PositionsUpTo(calls, |calls|), answered);
    }
  }

  lemma {:induction false} DueInOrder(owed: seq<Owed>, p: nat, positions: map<string, nat>, answered: set<string>, lo: int)
    requires OwedInOrder(owed, positions, answered, lo)
    ensures OwedInOrder(Due(owed, Some(p)), positions, answered, lo)
    ensures forall i :: 0 <= i < |Due(owed, Some(p))| ==> Due(owed, Some(p))[i].position < p
  {
    if owed != [] {
      hide OwedInOrder;
      var tail := Due(owed[1..], Some(p));
      OwedTail(owed, positions, answered, lo);
      DueInOrder(owed[1..], p, positions, answered, owed[0].position + 1);
      if owed[0].position < p {
        OwedCons(owed[0], tail, positions, answered, lo);
      } else {
        assert Due(owed, Some(p)) == tail;
        OwedWeaken(tail, positions, answered, lo, owed[0].position + 1);
      }
    }
  }

  predicate Skips(owed: seq<Owed>, p: nat) {
    forall i :: 0 <= i < |owed| ==> owed[i].position != p
  }

  lemma {:induction false} LeftInOrder(owed: seq<Owed>, p: nat, positions: map<string, nat>, answered: set<string>, lo: int)
    requires OwedInOrder(owed, positions, answered, lo) && Skips(owed, p)
    ensures OwedInOrder(Left(owed, Some(p)), positions, answered, p + 1)
  {
    hide OwedInOrder;
    if owed == [] {
      NothingOwed(positions, answered, p + 1);
    } else {
      var tail := Left(owed[1..], Some(p));
      OwedTail(owed, positions, answered, lo);
      if owed[0].position < p {
        LeftInOrder(owed[1..], p, positions, answered, owed[0].position + 1);
        assert Left(owed, Some(p)) == tail;
      } else {
        NoneDue(owed[1..], p, positions, answered, owed[0].position + 1);
        assert Left(owed, Some(p)) == [owed[0]] + owed[1..];
        OwedCons(owed[0], owed[1..], positions, answered, p + 1);
      }
    }
  }

  lemma {:induction false} NoneDue(owed: seq<Owed>, p: nat, positions: map<string, nat>, answered: set<string>, lo: int)
    requires OwedInOrder(owed, positions, answered, lo) && p < lo
    ensures Left(owed, Some(p)) == owed
  {
    if owed != [] {
      OwedTail(owed, positions, answered, lo);
      NoneDue(owed[1..], p, positions, answered, owed[0].position + 1);
    }
  }

  lemma PlaceholdersInOrder(owed: seq<Owed>, positions: map<string, nat>, answered: set<string>, lo: int)
    requires OwedInOrder(owed, positions, answered, lo)
    ensures InCallOrder(Placeholders(owed), positions, lo)
    ensures forall i :: 0 <= i < |owed| ==> Position(Placeholders(owed)[i], positions) == owed[i].position
  {
  }

  lemma OrderAppend(es: seq<Emitted>, e: Emitted, fs: seq<Emitted>, positions: map<string, nat>, lo: int)
    requires InCallOrder(es, positions, lo) && Position(e, positions) >= lo
    requires forall i :: 0 <= i < |es| ==> Position(es[i], positions) < Position(e, positions)
    requires InCallOrder(fs, positions, Position(e, positions) + 1)
    ensures InCallOrder(es + [e] + fs, positions, lo)
  {
  }

  /** Answered in call order, a row's outputs come out sorted by call position, placeholders included. */
  lemma {:induction false} BlockInOrder(tools: seq<Message>, owed: seq<Owed>, positions: map<string, nat>, answered: set<string>, lo: int)
    requires OnlyTools(tools) && Injective(positions) && Answered(tools) <= answered
    requires OwedInOrder(owed, positions, answered, lo) && AnswersInOrder(tools, positions, lo)
    ensures InCallOrder(Repair(tools, owed, positions, answered), positions, lo)
    decreases |tools|
  {
    hide InCallOrder, OwedInOrder;
    if tools == [] {
      PlaceholdersInOrder(owed, positions, answered, lo);
    } else {
      var m := tools[0];
      assert Answered(tools[1..]) <= answered;
      if m.System? {
        BlockInOrder(tools[1..], owed, positions, answered, lo);
        assert [] + Repair(tools[1..], owed, positions, answered) == Repair(tools[1..], owed, positions, answered);
      } else {
        BlockStep(tools, owed, positions, answered, lo);
      }
    }
  }

  lemma {:induction false} BlockStep(tools: seq<Message>, owed: seq<Owed>, positions: map<string, nat>, answered: set<string>, lo: int)
    requires tools != [] && tools[0].Tool?
    requires OnlyTools(tools) && Injective(positions) && Answered(tools) <= answered
    requires OwedInOrder(owed, positions, answered, lo) && AnswersInOrder(tools, positions, lo)
    ensures InCallOrder(Repair(tools, owed, positions, answered), positions, lo)
    decreases |tools|, 0
  {
    hide InCallOrder, Repair, Emit, Due, Left, Decode, OwedInOrder, Injective, Answered;
    var c := Decode(tools[0].toolCallId).callId;
    var p := positions[c];
    FirstIsAnswered(tools, answered);
    SkipsAnswered(owed, c, positions, answered, lo);
    DueInOrder(owed, p, positions, answered, lo);
    LeftInOrder(owed, p, positions, answered, lo);
    var due, left := Due(owed, Some(p)), Left(owed, Some(p));
    PlaceholdersInOrder(due, positions, answered, lo);
    BlockInOrder(tools[1..], left, positions, answered, p + 1);
    ToolStep(tools, owed, positions, answered);
    OrderAppend(Placeholders(due), Real(ToolItem(tools[0])), Repair(tools[1..], left, positions, answered), positions, lo);
  }

  lemma FirstIsAnswered(tools: seq<Message>, answered: set<string>)
    requires tools != [] && tools[0].Tool? && Decode(tools[0].toolCallId).callId != "" && Answered(tools) <= answered
    ensures Decode(tools[0].toolCallId).callId in answered && Answered(tools[1..]) <= answered
  {
    hide Decode;
    assert tools[0] in tools && Decode(tools[0].toolCallId).callId in Answered(tools);
    assert Answered(tools[1..]) <= Answered(tools);
  }

  /** What is owed is unanswered, so it does not sit where an answered call sits. */
  lemma SkipsAnswered(owed: seq<Owed>, c: string, positions: map<string, nat>, answered: set<string>, lo: int)
    requires OwedInOrder(owed, positions, answered, lo) && Injective(positions) && c in answered && c in positions
    ensures Skips(owed, positions[c])
  {
  }

  lemma ToolStep(tools: seq<Message>, owed: seq<Owed>, positions: map<string, nat>, answered: set<string>)
    requires tools != [] && tools[0].Tool? && Decode(tools[0].toolCallId).callId in positions
    ensures var p := Some(positions[Decode(tools[0].toolCallId).callId] as int);
            Repair(tools, owed, positions, answered)
            == Placeholders(Due(owed, p)) + [Real(ToolItem(tools[0]))] + Repair(tools[1..], Left(owed, p), positions, answered)
  {
    hide Due, Left, Decode, ToolItem;
    RepairStep(tools, owed, positions, answered);
    assert Reals(RowItems(tools[0])) == [Real(ToolItem(tools[0]))];
  }

  lemma PositionsAreInjective(calls: seq<Call>)
    ensures Injective(PositionsUpTo(calls, |calls|))
  {
    PositionsAreCalls(calls, |calls|);
  }

  /**
   A conversion, seen from one of its assistant rows: what came before with its dues settled, the
   row's reasoning, all its calls side by side and its text, its block of outputs, then the rest
   owing nothing. The block is the recorded outputs in order with placeholders among them, and if
   they were recorded in call order the whole block is in call order.
   */
  lemma RowKeepsItsOrder(before: seq<Message>, row: Message, tools: seq<Message>, rest: seq<Message>)
    requires row.Assistant? && OnlyTools(tools)
    requires rest == [] || rest[0].User? || rest[0].Assistant?
    ensures var ms := before + ([row] + (tools + rest));
            var answered := Answered(ms);
            var block := Block(row.calls, tools, answered);
            var positions := PositionsUpTo(row.calls, |row.calls|);
            && Converted(ms) == Lead(before, answered)
                                + Reals(ReasoningItems(row.reasoning) + CallItems(row.calls) + Said(row.said))
                                + (block + Repair(rest, [], PositionsAfterAll(tools, positions), answered))
            && RealItems(block) == RowByRow(tools)
            && (forall e :: e in block ==> Plain(e).FunctionCallOutput?)
            && (DistinctIds(row.calls) && AnswersInOrder(tools, positions, 0) ==> InCallOrder(block, positions, 0))
  {
    hide Repair, InCallOrder, AnswersInOrder, DistinctIds, Lead, RowByRow, RealItems, PositionsUpTo, OwedFrom, Reals;
    var ms := before + ([row] + (tools + rest));
    var answered := Answered(ms);
    var owed, positions := OwedFrom(row.calls, 0, answered), PositionsUpTo(row.calls, |row.calls|);
    AssistantOpens(before, row, tools + rest, answered);
    BlockCloses(tools, rest, owed, positions, answered);
    RepairIsLossless(tools, owed, positions, answered);
    BlockIsOutputs(tools, owed, positions, answered);
    if DistinctIds(row.calls) && AnswersInOrder(tools, positions, 0) {
      OwedFromInOrder(row.calls, 0, answered);
      PositionsAreInjective(row.calls);
      assert Answered(tools) <= answered;
      BlockInOrder(tools, owed, positions, answered, 0);
    }
  }
}
