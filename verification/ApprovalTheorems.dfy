/**
 What the approval gate promises over whole runs: every interleaving of asks, grants,
 clicks, timers, replies, teardowns, control-surface calls and crashes.
 */
module ApprovalTheorems {
  import opened Wrappers
  import opened ApprovalModel
  import opened ApprovalKeys
  import opened ApprovalProtocol
  import opened ApprovalEffects
  import opened ApprovalInvariants

  ghost function After(now: int, acts: seq<Action>): State {
    Run(Initial(now), acts)
  }

  lemma Reachable(now: int, acts: seq<Action>)
    ensures Invariant(After(now, acts))
  {
    InvariantInitially(now);
    InvariantOnRuns(Initial(now), acts);
  }

  /** What an ask has been told: at once, or through the card it waits on. */
  function Told(h: History, a: AskId): Option<Outcome> {
    if a in h.answers then Some(h.answers[a].outcome)
    else if a in h.riding && h.riding[a] in h.settled then Some(h.settled[h.riding[a]].outcome)
    else None
  }

  // The four ways an ask may come by a yes.

  /** The user gave a one-shot grant for this session, tool and own arguments; this ask alone consumed it, before any revocation. */
  ghost predicate YesByGrant(h: History, a: AskId) {
    && a in h.answers && h.answers[a].why.ByGrant? && h.answers[a].outcome.Approved? && h.answers[a].outcome.grant.OneShot?
    && GrantedFor(h, a, h.answers[a].outcome.grant.id, h.answers[a].step)
  }

  ghost predicate GrantedFor(h: History, a: AskId, g: GrantId, at: nat) {
    && a in h.asked && g in h.given && GrantsCall(h.given[g].key, h.asked[a])
    && g in h.taken && h.taken[g] == Taken(a, at) && h.takeCalls[g] == 1
    && h.given[g].step < at && (g in h.revoked ==> at <= h.revoked[g]) && SameProcess(h, h.given[g].step, at)
  }

  /** "Always allow" was clicked on a card of this session, tool and scope, and neither call forbids remembering. */
  ghost predicate YesByMemory(h: History, a: AskId) {
    && a in h.answers && h.answers[a].why.ByMemory? && a in h.asked && !h.asked[a].alwaysAsk
    && exists id :: AllowedFor(h, h.asked[a], id, h.answers[a].step)
  }

  ghost predicate AllowedFor(h: History, ask: Ask, id: CardId, until: nat) {
    && id in h.cards && id in h.settled && h.settled[id].how == Clicked(true, true) && !h.cards[id].ask.alwaysAsk
    && h.cards[id].ask.session == ask.session && h.cards[id].ask.tool == ask.tool && h.cards[id].ask.scope == ask.scope
    && h.settled[id].step < until && Unbroken(h, ask.session, h.settled[id].step, until)
  }

  /** Approve was clicked on the card this ask waits on, put up for the same session, tool and whole arguments. */
  ghost predicate YesByClick(h: History, a: AskId) {
    && a in h.riding && a in h.asked && h.riding[a] in h.cards && h.riding[a] in h.settled
    && h.settled[h.riding[a]].how.Clicked? && h.settled[h.riding[a]].how.approved
    && SameCall(h.cards[h.riding[a]].ask, h.asked[a])
  }

  /** A yes recorded for the dead card this ask repeats, applied once, within that card's window. */
  ghost predicate YesByRecord(h: History, a: AskId) {
    && a in h.answers && h.answers[a].why.ByRecord?
    && VerdictFor(h, a, h.answers[a].why.id, true, h.answers[a].at)
  }

  /** The dead card is of the same op and tool, its arguments' text starts alike, and its window had not run out. */
  ghost predicate VerdictFor(h: History, a: AskId, id: CardId, approved: bool, now: int) {
    && a in h.asked && id in h.cards && id in h.decisions && h.decisions[id].approved == approved && h.decisions[id].at <= now
    && h.asked[a].op.Some? && h.cards[id].ask.op == h.asked[a].op && h.cards[id].ask.tool == h.asked[a].tool
    && SameStart(h.cards[id].ask.text, h.asked[a].text)
    && h.applied[id] == 1 && id in h.consumer && h.consumer[id] == a && now - h.cards[id].requestedAt < 300000
  }

  // From keys to fields.

  lemma GrantOnFields(h: History, a: AskId, g: GrantId, at: nat)
    requires GrantUsed(h, a, g, at)
    ensures GrantedFor(h, a, g, at)
  {
    GrantedMeans(h.asked[a], h.given[g].key);
  }

  lemma AllowedOnFields(h: History, ask: Ask, until: nat)
    requires exists id :: AllowedBy(h, ask.session, ask.Cache(), id, until)
    ensures exists id :: AllowedFor(h, ask, id, until)
  {
    var id :| AllowedBy(h, ask.session, ask.Cache(), id, until);
    CacheMeans(h.cards[id].ask, ask.Cache());
    CacheMeans(ask, ask.Cache());
    assert AllowedFor(h, ask, id, until);
  }

  lemma VerdictOnFields(h: History, a: AskId, id: CardId, approved: bool, now: int)
    requires VerdictApplied(h, a, id, approved, now)
    ensures VerdictFor(h, a, id, approved, now)
  {
    PreviewsAgree(h.cards[id].ask, h.asked[a]);
  }

  /** Every answer on record, on fields. */
  lemma AnswerOnFields(h: History, a: AskId, w: Answer)
    requires Justified(h, a, w)
    ensures w.why.ByGrant? ==> w.outcome.Approved? && w.outcome.grant.OneShot? && GrantedFor(h, a, w.outcome.grant.id, w.step)
    ensures w.why.ByMemory? ==>
              w.outcome == Approved(NoGrant) && !h.asked[a].alwaysAsk && exists id :: AllowedFor(h, h.asked[a], id, w.step)
    ensures w.why.BySuppression? ==>
              w.outcome.Denied? && exists id, ts :: MutedFor(h, h.asked[a], w.outcome.reason, ts, id, w.step) && w.at - ts < 60000
    ensures w.why.ByRecord? ==>
              exists yes :: VerdictFor(h, a, w.why.id, yes, w.at) && w.outcome == if yes then Approved(NoGrant) else Denied(Declined)
  {
    hide GrantUsed, AllowedBy, VerdictApplied, SilencedBy, GrantedFor, AllowedFor, VerdictFor, MutedFor;
    match w.why
    case ByGrant => GrantOnFields(h, a, w.outcome.grant.id, w.step);
    case ByMemory => AllowedOnFields(h, h.asked[a], w.step);
    case BySuppression =>
      var id, ts :| SilencedBy(h, h.asked[a].Exact(), Suppression(ts, w.outcome.reason), id, w.step)
                    && w.at - ts < DECLINE_SUPPRESS_MS;
      MutedOnFields(h, h.asked[a], w.outcome.reason, ts, id, w.step);
    case ByRecord(id) =>
      var yes :| VerdictApplied(h, a, id, yes, w.at) && w.outcome == if yes then Approved(NoGrant) else Denied(Declined);
      VerdictOnFields(h, a, id, yes, w.at);
  }

  /** The card of exactly this call was denied or ran out at ts, and no turn, teardown or crash came between. */
  ghost predicate MutedFor(h: History, ask: Ask, reason: Reason, ts: int, id: CardId, until: nat) {
    && id in h.cards && id in h.settled && SameCall(h.cards[id].ask, ask) && h.settled[id].at == ts
    && (match h.settled[id].how
        case Clicked(approved, _) => !approved && reason == Declined
        case ByTimer => reason == TimedOut
        case _ => false)
    && h.settled[id].step < until && Unbroken(h, ask.session, h.settled[id].step, until)
    && forall t :: (ask.session, t) in h.turns ==> !(h.settled[id].step < t < until)
  }

  lemma MutedOnFields(h: History, ask: Ask, reason: Reason, ts: int, id: CardId, until: nat)
    requires SilencedBy(h, ask.Exact(), Suppression(ts, reason), id, until)
    ensures MutedFor(h, ask, reason, ts, id, until)
  {
    ExactKeysAgree(h.cards[id].ask, ask);
    ExactMeans(ask, ask.Exact());
  }

  /** What an answered ask and a settled card have on record, in any reachable state. */
  lemma OnRecord(s: State, a: AskId)
    requires Invariant(s)
    ensures a in s.hist.answers ==> a in s.hist.asked && a !in s.hist.riding && Justified(s.hist, a, s.hist.answers[a])
    ensures a in s.hist.riding ==>
              var id := s.hist.riding[a];
              && a in s.hist.asked && id in s.hist.cards && SameCall(s.hist.cards[id].ask, s.hist.asked[a])
              && (id in s.hist.settled ==> OutcomeFits(id, s.hist.settled[id].how, s.hist.settled[id].outcome))
  {
    hide Columns, Verdicts, Events, Coalesced, Slots, Grants, Memory, Mutes, Marks, Steps, CardIds, Justified;
    if a in s.hist.riding {
      ExactKeysAgree(s.hist.cards[s.hist.riding[a]].ask, s.hist.asked[a]);
    }
  }

  /** An ask that rides a card, or is told its outcome, is the card's call: session, tool and whole arguments. */
  lemma RidersAreTheSameCall(now: int, acts: seq<Action>, a: AskId)
    ensures var h := After(now, acts).hist;
            a in h.riding ==> a in h.asked && h.riding[a] in h.cards && SameCall(h.cards[h.riding[a]].ask, h.asked[a])
  {
    Reachable(now, acts);
    OnRecord(After(now, acts), a);
    hide Run, Invariant;
  }

  function Count(b: bool): nat { if b then 1 else 0 }

  /** No approval without a yes: every approved ask has exactly one of the four sources. */
  lemma NoApprovalWithoutYes(now: int, acts: seq<Action>, a: AskId)
    ensures var h := After(now, acts).hist;
            Told(h, a).Some? && Told(h, a).value.Approved? ==>
              Count(YesByGrant(h, a)) + Count(YesByMemory(h, a)) + Count(YesByClick(h, a)) + Count(YesByRecord(h, a)) == 1
  {
    hide Run, Invariant, YesByGrant, YesByMemory, YesByClick, YesByRecord, Told, Recorded;
    Reachable(now, acts);
    OnRecord(After(now, acts), a);
    assert Recorded(After(now, acts).hist, a) by { RecordedMeans(After(now, acts).hist, a); }
    YesOfRecord(After(now, acts).hist, a);
  }

  /** What a reachable state's history says of an ask, taken by itself. */
  ghost predicate Recorded(h: History, a: AskId) {
    && (a in h.answers ==> a in h.asked && a !in h.riding && Justified(h, a, h.answers[a]))
    && (a in h.riding ==>
          var id := h.riding[a];
          && a in h.asked && id in h.cards && SameCall(h.cards[id].ask, h.asked[a])
          && (id in h.settled ==> OutcomeFits(id, h.settled[id].how, h.settled[id].outcome)))
  }

  lemma RecordedMeans(h: History, a: AskId)
    requires a in h.answers ==> a in h.asked && a !in h.riding && Justified(h, a, h.answers[a])
    requires a in h.riding ==>
               var id := h.riding[a];
               && a in h.asked && id in h.cards && SameCall(h.cards[id].ask, h.asked[a])
               && (id in h.settled ==> OutcomeFits(id, h.settled[id].how, h.settled[id].outcome))
    ensures Recorded(h, a)
  {
    hide Justified, SameCall, OutcomeFits;
  }

  lemma YesOfRecord(h: History, a: AskId)
    requires Recorded(h, a)
    ensures Told(h, a).Some? && Told(h, a).value.Approved? ==>
              Count(YesByGrant(h, a)) + Count(YesByMemory(h, a)) + Count(YesByClick(h, a)) + Count(YesByRecord(h, a)) == 1
  {
    hide GrantedFor, AllowedFor, VerdictFor, MutedFor, Justified, SameCall;
    if a in h.answers {
      AnswerOnFields(h, a, h.answers[a]);
    }
  }

  lemma NoOfRecord(h: History, a: AskId)
    requires Recorded(h, a)
    ensures Told(h, a) == Some(Denied(Declined)) ==> NoByMute(h, a) || NoByClick(h, a) || NoByRecord(h, a)
  {
    hide GrantedFor, AllowedFor, VerdictFor, MutedFor, Justified, SameCall;
    if a in h.answers {
      AnswerOnFields(h, a, h.answers[a]);
    }
  }

  /** A call that must always be asked for is never approved from memory. */
  lemma AlwaysAskIsNeverRemembered(now: int, acts: seq<Action>, a: AskId)
    ensures var h := After(now, acts).hist;
            a in h.asked && h.asked[a].alwaysAsk && Told(h, a).Some? && Told(h, a).value.Approved? ==>
              YesByGrant(h, a) || YesByClick(h, a) || YesByRecord(h, a)
  {
    NoApprovalWithoutYes(now, acts, a);
    hide YesByGrant, YesByClick, YesByRecord, After;
  }

  /** A one-shot grant is handed out once, so it answers one ask. */
  lemma GrantsAreSpentOnce(now: int, acts: seq<Action>, a: AskId, b: AskId)
    ensures var h := After(now, acts).hist;
            && (forall g :: h.takeCalls[g] <= 1)
            && (a in h.answers && b in h.answers && h.answers[a].outcome == h.answers[b].outcome ==>
                  h.answers[a].outcome.Approved? && h.answers[a].outcome.grant.OneShot? ==> a == b)
  {
    Reachable(now, acts);
    OnRecord(After(now, acts), a);
    OnRecord(After(now, acts), b);
    assert Grants(After(now, acts));
    hide Run, Invariant, AllowedBy, SilencedBy, VerdictApplied;
  }

  // The three ways an ask may be told "declined".

  /** A Deny click less than a minute ago on a card of the same session, tool and whole arguments still mutes the call. */
  ghost predicate NoByMute(h: History, a: AskId) {
    && a in h.answers && h.answers[a].why.BySuppression? && a in h.asked
    && exists id, ts :: MutedFor(h, h.asked[a], Declined, ts, id, h.answers[a].step) && h.answers[a].at - ts < 60000
  }

  ghost predicate NoByClick(h: History, a: AskId) {
    && a in h.riding && a in h.asked && h.riding[a] in h.cards && h.riding[a] in h.settled
    && h.settled[h.riding[a]].how.Clicked? && !h.settled[h.riding[a]].how.approved
    && SameCall(h.cards[h.riding[a]].ask, h.asked[a])
  }

  ghost predicate NoByRecord(h: History, a: AskId) {
    a in h.answers && h.answers[a].why.ByRecord? && VerdictFor(h, a, h.answers[a].why.id, false, h.answers[a].at)
  }

  /** "Declined" is never made up: a human denied exactly this call, or the denial was recorded for it. */
  lemma DeclinedMeansDenied(now: int, acts: seq<Action>, a: AskId)
    ensures var h := After(now, acts).hist;
            Told(h, a) == Some(Denied(Declined)) ==> NoByMute(h, a) || NoByClick(h, a) || NoByRecord(h, a)
  {
    hide Run, Invariant, NoByMute, NoByClick, NoByRecord, Told, Recorded;
    Reachable(now, acts);
    OnRecord(After(now, acts), a);
    assert Recorded(After(now, acts).hist, a) by { RecordedMeans(After(now, acts).hist, a); }
    NoOfRecord(After(now, acts).hist, a);
  }

  /** Suppressions only ever hold a denial by click or an expiry. */
  lemma SuppressionsHoldDenialsAndTimeouts(now: int, acts: seq<Action>, ask: Ask)
    ensures var s := After(now, acts); var k := ExactKey(ask.session, ask.tool, ask.args);
            k in s.core.suppressed ==>
              && s.core.suppressed[k].reason != Superseded
              && exists id :: MutedFor(s.hist, ask, s.core.suppressed[k].reason, s.core.suppressed[k].ts, id, s.step)
  {
    Reachable(now, acts);
    hide Run;
    var s, k := After(now, acts), ExactKey(ask.session, ask.tool, ask.args);
    ExactMeans(ask, k);
    if k in s.core.suppressed {
      var id :| SilencedBy(s.hist, k, s.core.suppressed[k], id, s.step);
      hide Invariant, SilencedBy, MutedFor;
      MutedOnFields(s.hist, ask, s.core.suppressed[k].reason, s.core.suppressed[k].ts, id, s.step);
      SilencedReason(s.hist, k, s.core.suppressed[k], id, s.step);
    }
  }

  lemma SilencedReason(h: History, k: ExactKey, v: Suppression, id: CardId, until: nat)
    requires SilencedBy(h, k, v, id, until)
    ensures v.reason != Superseded
  {
  }

  /** How a card ends: approved by its own click, declined by one, timed out by its timer or teardown, superseded by a reply. */
  predicate EndsAs(id: CardId, how: How, outcome: Outcome) {
    match how
    case Clicked(approved, _) => outcome == if approved then Approved(FromCard(id)) else Denied(Declined)
    case ByTimer => outcome == Denied(TimedOut)
    case ByReply => outcome == Denied(Superseded)
    case ByTeardown => outcome == Denied(TimedOut)
  }

  /**
   Every card ever put up is pending, settled or lost in a crash, and only one of these;
   its promise is resolved once if it settled and never otherwise; and a settled card with
   a durable shadow has exactly one resolve event, which tells how it ended.
   */
  lemma CardsSettleOnce(now: int, acts: seq<Action>, id: CardId)
    ensures var s := After(now, acts);
            && s.core.resolveCalls[id] == Count(id in s.hist.settled)
            && (id in s.hist.settled ==> EndsAs(id, s.hist.settled[id].how, s.hist.settled[id].outcome))
            && (id in s.core.pending ==> id in s.hist.cards && id !in s.hist.settled && Unresolved(s.core.events, id))
            && (id in s.hist.cards ==> id in s.core.pending || id in s.hist.settled
                                       || exists t :: t in s.hist.crashes && s.hist.cards[id].step < t)
            && (id in s.hist.settled && Shadowed(s.hist, id) ==>
                  var ask, outcome := s.hist.cards[id].ask, s.hist.settled[id].outcome;
                  ResolvedOnce(s.core.events, Resolved(ask.op.value, id, ask.tool, outcome.Approved?,
                                                       if outcome.Denied? then Some(outcome.reason) else None, false)))
  {
    Reachable(now, acts);
    hide Run;
  }

  /** A call no op ever asked for has at most one card up at a time. */
  lemma PlainCallsHaveOneCard(now: int, acts: seq<Action>, i: CardId, j: CardId)
    ensures var s := After(now, acts);
            i in s.core.pending && j in s.core.pending && SameCall(s.core.pending[i].ask, s.core.pending[j].ask)
            && (forall a :: a in s.hist.asked && s.hist.asked[a].op.Some? ==> !SameCall(s.hist.asked[a], s.core.pending[i].ask))
            ==> i == j
  {
    Reachable(now, acts);
    var s := After(now, acts);
    hide Run;
    assert InSlot(s, i) && InSlot(s, j);
    if i in s.core.pending && j in s.core.pending {
      ExactKeysAgree(s.core.pending[i].ask, s.core.pending[j].ask);
      forall a | a in s.hist.asked
        ensures s.hist.asked[a].Exact() == s.core.pending[i].ask.Exact() <==> SameCall(s.hist.asked[a], s.core.pending[i].ask)
      {
        ExactKeysAgree(s.hist.asked[a], s.core.pending[i].ask);
      }
    }
  }

  // ---- a recorded verdict, on fields ----

  /**
   The op's column holds a decision on a dead card of the same tool whose arguments' text starts alike, still in its
   window, and the bridge to it is there.
   */
  ghost predicate HasVerdict(s: State, ask: Ask, loads: bool) {
    && (s.core.bridge || loads) && ask.op.Some? && ask.op.value in s.core.columns
    && var r := s.core.columns[ask.op.value];
       && r.id !in s.core.pending && r.id in s.hist.cards && r.decision.Some?
       && s.hist.cards[r.id].ask.op == ask.op && s.hist.cards[r.id].ask.tool == ask.tool
       && SameStart(s.hist.cards[r.id].ask.text, ask.text) && s.now - s.hist.cards[r.id].requestedAt < 300000
  }

  lemma VerdictIsFound(s: State, ask: Ask, loads: bool)
    requires Invariant(s) && ask.op.Some?
    ensures Find(s.core, ask, loads, s.now).Verdict? <==> HasVerdict(s, ask, loads)
  {
    var op := ask.op.value;
    if op in s.core.columns {
      var r := s.core.columns[op];
      ColumnIsShadow(s, op);
      PreviewsAgree(s.hist.cards[r.id].ask, ask);
      hide Invariant, ColumnFits;
    }
  }

  lemma ColumnIsShadow(s: State, op: string)
    requires Invariant(s) && op in s.core.columns
    ensures ColumnFits(s.hist, op, s.core.columns[op])
  {
    hide CardIds, AskIds, Steps, Marks, Cards, Promises, Grants, Memory, Mutes, Verdicts, Answers, Events, Coalesced, ColumnFits;
  }

  // ---- where one op-scoped ask spoils that ----

  const PLAIN: Ask := Ask("s", "delete_file", map[], "{}", "{}", false, None)
  const SCOPED: Ask := Ask("s", "delete_file", map[], "{}", "{}", false, Some("op"))

  /** The op-scoped ask suspends, a plain one opens a card, and the op's own card then takes over the slot. */
  const SPOILING: seq<Action> := [
    StartAsk(1, SCOPED), StartAsk(2, PLAIN), BridgeSettles(1, true),
    UserClicks(CardId(1, 0), true, false), ReleaseSlot(CardId(1, 0)), StartAsk(3, PLAIN)]

  lemma {:induction false} RunStep(s: State, acts: seq<Action>, act: Action)
    ensures Run(s, acts + [act]) == Next(Run(s, acts), act)
  {
    assert (acts + [act])[..|acts|] == acts;
  }

  /** With an op asking for the same call, two plain cards for it can be up at once. */
  lemma OpAsksBreakCoalescing()
    ensures var s := After(0, SPOILING);
            && CardId(2, 0) in s.core.pending && CardId(3, 0) in s.core.pending
            && s.core.pending[CardId(2, 0)].ask == PLAIN && s.core.pending[CardId(3, 0)].ask == PLAIN
  {
    var s0 := Initial(0);
    var s1 := Next(s0, SPOILING[0]);
    var s2 := Next(s1, SPOILING[1]);
    var s3 := Next(s2, SPOILING[2]);
    var s4 := Next(s3, SPOILING[3]);
    var s5 := Next(s4, SPOILING[4]);
    var s6 := Next(s5, SPOILING[5]);
    RunStep(s0, [], SPOILING[0]);
    RunStep(s0, SPOILING[..1], SPOILING[1]);
    RunStep(s0, SPOILING[..2], SPOILING[2]);
    RunStep(s0, SPOILING[..3], SPOILING[3]);
    RunStep(s0, SPOILING[..4], SPOILING[4]);
    RunStep(s0, SPOILING[..5], SPOILING[5]);
    assert [] + [SPOILING[0]] == SPOILING[..1];
    assert SPOILING[..1] + [SPOILING[1]] == SPOILING[..2];
    assert SPOILING[..2] + [SPOILING[2]] == SPOILING[..3];
    assert SPOILING[..3] + [SPOILING[3]] == SPOILING[..4];
    assert SPOILING[..4] + [SPOILING[4]] == SPOILING[..5];
    assert SPOILING[..5] + [SPOILING[5]] == SPOILING;
    assert Run(s0, SPOILING) == s6;
    hide Next, Run;
    FirstHalf(s0, s1, s2, s3);
    SecondHalf(s3, s4, s5, s6);
  }

  lemma FirstHalf(s0: State, s1: State, s2: State, s3: State)
    requires s0 == Initial(0) && s1 == Next(s0, SPOILING[0]) && s2 == Next(s1, SPOILING[1]) && s3 == Next(s2, SPOILING[2])
    ensures s3.now == 0 && s3.core.grants == map[] && s3.core.auto == map[] && s3.core.suppressed == map[]
    ensures s3.core.nextCard == 3 && s3.hist.asked.Keys == {1, 2}
    ensures CardId(2, 0) in s3.core.pending && s3.core.pending[CardId(2, 0)].ask == PLAIN
    ensures CardId(1, 0) in s3.core.pending && s3.core.pending[CardId(1, 0)].ask == SCOPED
    ensures s3.core.inflight == map[PLAIN.Exact() := CardId(1, 0)]
  {
    hide Next, AskStep;
    var r1 := AskEffects(s0, 1, SCOPED);
    var r2 := AskEffects(s1, 2, PLAIN);
    ResumeEffects(s2, 1, true);
  }

  /** The op's card is approved; its slot still points at it. */
  lemma Approving(s3: State, s4: State)
    requires s4 == Next(s3, SPOILING[3]) && s3.now == 0
    requires s3.core.grants == map[] && s3.core.auto == map[] && s3.core.suppressed == map[]
    requires CardId(1, 0) in s3.core.pending && s3.core.pending[CardId(1, 0)].ask == SCOPED
    ensures s4.now == 0 && s4.core.grants == map[] && s4.core.suppressed == map[]
    ensures forall x, c :: x in s4.core.auto ==> c !in s4.core.auto[x]
    ensures s4.core.pending == s3.core.pending - {CardId(1, 0)} && s4.core.inflight == s3.core.inflight
    ensures CardId(1, 0) in s4.core.releases && s4.core.releases[CardId(1, 0)] == SCOPED.Exact()
    ensures s4.core.nextCard == s3.core.nextCard && s4.hist.asked == s3.hist.asked
  {
    hide Next;
    ClickSettles(s3, CardId(1, 0), true, false);
    ClickMemory(s3, CardId(1, 0), true, false);
  }

  lemma SecondHalf(s3: State, s4: State, s5: State, s6: State)
    requires s4 == Next(s3, SPOILING[3]) && s5 == Next(s4, SPOILING[4]) && s6 == Next(s5, SPOILING[5])
    requires s3.now == 0 && s3.core.grants == map[] && s3.core.auto == map[] && s3.core.suppressed == map[]
    requires s3.core.nextCard == 3 && s3.hist.asked.Keys == {1, 2}
    requires CardId(2, 0) in s3.core.pending && s3.core.pending[CardId(2, 0)].ask == PLAIN
    requires CardId(1, 0) in s3.core.pending && s3.core.pending[CardId(1, 0)].ask == SCOPED
    requires s3.core.inflight == map[PLAIN.Exact() := CardId(1, 0)]
    ensures CardId(2, 0) in s6.core.pending && CardId(3, 0) in s6.core.pending
    ensures s6.core.pending[CardId(2, 0)].ask == PLAIN && s6.core.pending[CardId(3, 0)].ask == PLAIN
  {
    hide AskStep, Next;
    Approving(s3, s4);
    QuietEffects(s4, SPOILING[4]);
    assert s5.core.inflight == map[];
    var r3 := AskEffects(s5, 3, PLAIN);
    assert r3.Opens?;
  }

  // ---- clicks, timers and replies ----

  /** The two hold the same suppressions but for this call's. */
  predicate SameMutesBut(a: Core, b: Core, call: Ask) {
    && (forall k :: k in a.suppressed && !Calls(call, k) ==> k in b.suppressed && b.suppressed[k] == a.suppressed[k])
    && (forall k :: k in b.suppressed && !Calls(call, k) ==> k in a.suppressed)
  }

  /**
   A click on a pending card: the card goes and its promise resolves to the answer; an approval lifts the call's mute and is
   remembered for the session's tool and scope exactly when asked to and the call may be; a denial mutes the call from now.
   */
  lemma ClickDoes(s: State, id: CardId, approved: bool, remember: bool)
    requires id in s.core.pending
    ensures var ask, s' := s.core.pending[id].ask, Next(s, UserClicks(id, approved, remember));
            var k := ExactKey(ask.session, ask.tool, ask.args);
            && s'.core.pending == s.core.pending - {id}
            && id in s'.core.outcomes && EndsAs(id, Clicked(approved, remember), s'.core.outcomes[id])
            && SameMutesBut(s.core, s'.core, ask)
            && (if approved then k !in s'.core.suppressed
                else k in s'.core.suppressed && s'.core.suppressed[k] == Suppression(s.now, Declined))
            && forall x, c :: (x in s'.core.auto && c in s'.core.auto[x]) <==>
                 || (x in s.core.auto && c in s.core.auto[x])
                 || (approved && remember && !ask.alwaysAsk && x == ask.session && c == CacheKey(ask.tool, ask.scope))
  {
    hide Next, SameMutesBut, EndsAs;
    ClickedCard(s, id, approved, remember);
    ClickedMutes(s, id, approved, remember);
    ClickedMemory(s, id, approved, remember);
  }

  lemma ClickedCard(s: State, id: CardId, approved: bool, remember: bool)
    requires id in s.core.pending
    ensures var s' := Next(s, UserClicks(id, approved, remember));
            && s'.core.pending == s.core.pending - {id}
            && id in s'.core.outcomes && EndsAs(id, Clicked(approved, remember), s'.core.outcomes[id])
  {
  }

  lemma ClickedMutes(s: State, id: CardId, approved: bool, remember: bool)
    requires id in s.core.pending
    ensures var ask, s' := s.core.pending[id].ask, Next(s, UserClicks(id, approved, remember));
            var k := ExactKey(ask.session, ask.tool, ask.args);
            && SameMutesBut(s.core, s'.core, ask)
            && if approved then k !in s'.core.suppressed
               else k in s'.core.suppressed && s'.core.suppressed[k] == Suppression(s.now, Declined)
  {
    var ask := s.core.pending[id].ask;
    forall k ensures ask.Exact() == k <==> Calls(ask, k) { ExactMeans(ask, k); }
    hide SettleCard;
  }

  lemma ClickedMemory(s: State, id: CardId, approved: bool, remember: bool)
    requires id in s.core.pending
    ensures var ask, s' := s.core.pending[id].ask, Next(s, UserClicks(id, approved, remember));
            forall x, c :: (x in s'.core.auto && c in s'.core.auto[x]) <==>
              || (x in s.core.auto && c in s.core.auto[x])
              || (approved && remember && !ask.alwaysAsk && x == ask.session && c == CacheKey(ask.tool, ask.scope))
  {
    CacheMeans(s.core.pending[id].ask, CacheKey(s.core.pending[id].ask.tool, s.core.pending[id].ask.scope));
    hide SettleCard;
  }

  /** A timer before its card's deadline does nothing; from then on the card goes as timed out and its call is muted from now. */
  lemma TimerDoes(s: State, id: CardId)
    requires id in s.core.pending
    ensures var ask, s' := s.core.pending[id].ask, Next(s, Timer(id));
            var k := ExactKey(ask.session, ask.tool, ask.args);
            if s.now < s.core.pending[id].deadline then s'.core == s.core && s'.hist == s.hist
            else
              && s'.core.pending == s.core.pending - {id}
              && id in s'.core.outcomes && s'.core.outcomes[id] == Denied(TimedOut)
              && SameMutesBut(s.core, s'.core, ask)
              && k in s'.core.suppressed && s'.core.suppressed[k] == Suppression(s.now, TimedOut)
              && s'.core.auto == s.core.auto
  {
    var ask := s.core.pending[id].ask;
    forall k ensures ask.Exact() == k <==> Calls(ask, k) { ExactMeans(ask, k); }
    var c1 := SettleCard(s.core, id, Denied(TimedOut));
    assert c1.pending == s.core.pending - {id} && id in c1.outcomes && c1.auto == s.core.auto && c1.suppressed == s.core.suppressed;
    hide SettleCard;
  }

  /** A reply in words supersedes exactly the session's cards and lifts the mutes of their calls, and no other. */
  lemma ReplyDoes(s: State, x: string, id: CardId, call: Ask)
    ensures var s' := Next(s, UserReplies(x)); var k := ExactKey(call.session, call.tool, call.args);
            && (id in s'.core.pending <==> id in s.core.pending && s.core.pending[id].ask.session != x)
            && (id in s'.core.pending ==> s'.core.pending[id] == s.core.pending[id])
            && (id in s.core.pending && s.core.pending[id].ask.session == x ==>
                  id in s'.core.outcomes && s'.core.outcomes[id] == Denied(Superseded))
            && (k in s'.core.suppressed <==>
                  && k in s.core.suppressed
                  && forall i :: i in s.core.pending && s.core.pending[i].ask.session == x ==> !SameCall(s.core.pending[i].ask, call))
            && (k in s'.core.suppressed ==> s'.core.suppressed[k] == s.core.suppressed[k]) && s'.core.auto == s.core.auto
  {
    var k := ExactKey(call.session, call.tool, call.args);
    ExactMeans(call, k);
    forall i | i in s.core.pending ensures s.core.pending[i].ask.Exact() == k <==> SameCall(s.core.pending[i].ask, call) {
      ExactKeysAgree(s.core.pending[i].ask, call);
    }
    hide ColumnsAfter, SettleEvents, ReleasesAfter, SameCall;
  }

  // ---- ending a session ----

  /** Teardown takes the session's cards, suppressions and memory, and nothing of any other session. */
  lemma EndSessionIsolates(s: State, x: string)
    ensures var s' := Next(s, EndSession(x));
            && CardsOf(s'.core, x) == {} && x !in s'.core.auto && (forall k :: k in s'.core.suppressed ==> k.session != x)
            && (forall id :: id in s.core.pending && s.core.pending[id].ask.session != x ==>
                  id in s'.core.pending && s'.core.pending[id] == s.core.pending[id])
            && (forall y :: y in s.core.auto && y != x ==> y in s'.core.auto && s'.core.auto[y] == s.core.auto[y])
            && (forall k :: k in s.core.suppressed && k.session != x ==>
                  k in s'.core.suppressed && s'.core.suppressed[k] == s.core.suppressed[k])
            && (forall id :: id in CardsOf(s.core, x) ==> id in s'.core.outcomes && s'.core.outcomes[id] == Denied(TimedOut))
  {
  }

  /** A resumed ask puts its card up unless a verdict was waiting for it. */
  lemma ResumingOpens(s: State, a: AskId, loads: bool)
    requires Resumable(s, a) && s.suspended[a].id !in s.core.pending
    ensures var s' := Next(s, BridgeSettles(a, loads));
            if Find(s.core, s.suspended[a].ask, loads, s.now).Verdict? then s'.core.pending == s.core.pending
            else s.suspended[a].id in s'.core.pending && s'.core.pending[s.suspended[a].id].ask == s.suspended[a].ask
  {
    hide Next, Find, ResumeEffect, ResumeFrame;
    ResumeEffects(s, a, loads);
    var up, at, answer :=
      ResumeOutlined(s, Next(s, BridgeSettles(a, loads)), a, s.suspended[a].ask, s.suspended[a].id, loads);
  }

  /** Ids minted by this state's counter, or held by a suspended ask, are on no card yet. */
  lemma IdsAreNew(s: State)
    requires Invariant(s)
    ensures CardId(s.core.nextCard, s.now) !in s.core.pending
    ensures forall a :: a in s.suspended ==> s.suspended[a].id !in s.core.pending
  {
    hide AskIds, Steps, Marks, Promises, Grants, Memory, Mutes, Columns, Verdicts, Answers, Events, Coalesced;
  }

  /** A suspended ask stays so until its bridge settles or the process dies. */
  lemma StaysSuspended(s: State, act: Action, a: AskId)
    requires Invariant(s) && a in s.suspended && !act.Crash? && !(act.BridgeSettles? && act.a == a)
    ensures a in Next(s, act).suspended && Next(s, act).suspended[a] == s.suspended[a]
  {
    hide Next, Invariant, AskFrame, SameTakes, ResumeEffect, ResumeFrame, Quiet, QuietGrantsEffect, QuietSlotsEffect,
         QuietColumnsEffect;
    SuspendedWasAsked(s, a);
    if (act.StartAsk? && act.a in s.hist.asked) || (act.BridgeSettles? && !Resumable(s, act.a)) {
      Ignored(s, act);
      TickChangesNothing(s);
    } else if act.StartAsk? {
      var r := AskEffects(s, act.a, act.ask);
    } else if act.BridgeSettles? {
      ResumeEffects(s, act.a, act.loads);
      ResumeSuspensions(s, Next(s, act), act.a, act.loads);
    } else if Quiet(s, act) {
      QuietEffects(s, act);
    } else {
      var ids, how, outcome := Settlers(s, act);
    }
  }

  lemma SuspendedWasAsked(s: State, a: AskId)
    requires Invariant(s) && a in s.suspended
    ensures a in s.hist.asked && Resumable(s, a)
  {
    hide CardIds, Steps, Marks, Cards, Promises, Grants, Memory, Mutes, Columns, Verdicts, Answers, Events, Coalesced;
  }

  lemma TickChangesNothing(s: State)
    ensures Next(s, Tick(0)).suspended == s.suspended
  {
  }

  lemma ResumeSuspensions(s: State, s': State, a: AskId, loads: bool)
    requires Resumable(s, a) && ResumeEffect(s, s', a, s.suspended[a].ask, s.suspended[a].id, loads)
    ensures s'.suspended == s.suspended - {a}
  {
  }

  lemma {:induction false} StaysSuspendedOverRuns(now: int, acts: seq<Action>, more: seq<Action>, a: AskId)
    requires a in After(now, acts).suspended
    requires forall act :: act in more ==> !act.Crash? && !(act.BridgeSettles? && act.a == a)
    ensures a in After(now, acts + more).suspended && After(now, acts + more).suspended[a] == After(now, acts).suspended[a]
    decreases |more|
  {
    hide Next, Invariant, Run;
    if more == [] {
      assert acts + more == acts;
    } else {
      var fewer, last := more[..|more| - 1], more[|more| - 1];
      StaysSuspendedOverRuns(now, acts, fewer, a);
      Reachable(now, acts + fewer);
      assert last in more && acts + more == (acts + fewer) + [last];
      RunStep(Initial(now), acts + fewer, last);
      StaysSuspended(After(now, acts + fewer), last, a);
    }
  }

  /**
   What teardown does not reach: an op-scoped ask at its await, however long the run goes on after its session ended,
   puts its card up for the dead session when its bridge settles, exactly when no recorded verdict answers it.
   */
  lemma SuspendedAskOutlivesItsSession(now: int, acts: seq<Action>, more: seq<Action>, a: AskId, loads: bool)
    requires a in After(now, acts).suspended
    requires forall act :: act in more ==> !act.Crash? && !(act.BridgeSettles? && act.a == a)
    ensures var ask, id := After(now, acts).suspended[a].ask, After(now, acts).suspended[a].id;
            var s := After(now, acts + ([EndSession(ask.session)] + more));
            && Resumable(s, a) && s.suspended[a].ask == ask
            && (id in CardsOf(Next(s, BridgeSettles(a, loads)).core, ask.session) <==> !HasVerdict(s, ask, loads))
  {
    hide Next, Find, Invariant, Run;
    var x := After(now, acts).suspended[a].ask.session;
    var all := [EndSession(x)] + more;
    StaysSuspendedOverRuns(now, acts, all, a);
    Reachable(now, acts + all);
    var s := After(now, acts + all);
    SuspendedWasAsked(s, a);
    IdsAreNew(s);
    VerdictIsFound(s, s.suspended[a].ask, loads);
    ResumingOpens(s, a, loads);
    hide HasVerdict;
  }
}
