/**
 What an answer of the user goes on doing: a denied or expired call stays muted for a minute, and an "always allow" holds
 until its session ends, over any run that does nothing to the contrary.
 */
module ApprovalPersistence {
  import opened Wrappers
  import opened ApprovalModel
  import opened ApprovalKeys
  import opened ApprovalProtocol
  import opened ApprovalEffects
  import opened ApprovalInvariants
  import opened ApprovalTheorems

  /** The call is muted, and has been denied or run out at ts or later. */
  predicate MutedSince(s: State, call: Ask, ts: int) {
    var k := ExactKey(call.session, call.tool, call.args);
    k in s.core.suppressed && s.core.suppressed[k].ts >= ts
  }

  /** The action lifts the mute: a crash, a new turn, a reply or the end of the session, or an approval of this call's card. */
  predicate Lifts(s: State, act: Action, call: Ask) {
    match act
    case Crash(_) => true
    case TurnStarts(x) => x == call.session
    case EndSession(x) => x == call.session
    case UserReplies(x) => x == call.session
    case UserClicks(id, approved, _) => approved && id in s.core.pending && SameCall(s.core.pending[id].ask, call)
    case OpClicks(_, id, approved, _) => approved && id in s.core.pending && SameCall(s.core.pending[id].ask, call)
    case _ => false
  }

  lemma ClickLeavesMute(s: State, id: CardId, approved: bool, remember: bool, call: Ask, ts: int)
    requires MutedSince(s, call, ts) && ts <= s.now && !Lifts(s, UserClicks(id, approved, remember), call)
    ensures MutedSince(Next(s, UserClicks(id, approved, remember)), call, ts)
  {
    hide SettleCard;
    if id in s.core.pending {
      ExactMeans(s.core.pending[id].ask, ExactKey(call.session, call.tool, call.args));
    }
  }

  lemma TimerLeavesMute(s: State, id: CardId, call: Ask, ts: int)
    requires MutedSince(s, call, ts) && ts <= s.now
    ensures MutedSince(Next(s, Timer(id)), call, ts)
  {
    hide SettleCard;
  }

  lemma ReplyLeavesMute(s: State, x: string, call: Ask, ts: int)
    requires MutedSince(s, call, ts) && x != call.session
    ensures MutedSince(Next(s, UserReplies(x)), call, ts)
  {
    var k := ExactKey(call.session, call.tool, call.args);
    forall id | id in CardsOf(s.core, x) ensures s.core.pending[id].ask.Exact() != k {
      ExactMeans(s.core.pending[id].ask, k);
    }
    hide SettleAll;
  }

  lemma EndLeavesMute(s: State, x: string, call: Ask, ts: int)
    requires MutedSince(s, call, ts) && x != call.session
    ensures MutedSince(Next(s, EndSession(x)), call, ts)
  {
  }

  lemma ResumeLeavesMute(s: State, a: AskId, loads: bool, call: Ask, ts: int)
    requires MutedSince(s, call, ts) && Resumable(s, a)
    ensures MutedSince(Next(s, BridgeSettles(a, loads)), call, ts)
  {
    hide Next, Find;
    ResumeEffects(s, a, loads);
  }

  predicate Collects(c: Core, after: Core, now: int) {
    after.suppressed == c.suppressed || after.suppressed == GcSuppressed(c.suppressed, now)
  }

  lemma AnsweredCollects(c: Core, ask: Ask, now: int)
    requires ask.Granted() in c.grants || Remembers(c, ask)
    ensures Collects(c, AskStep(c, ask, now).0, now)
  {
    hide Register, GcSuppressed, Muted;
  }

  lemma MutedCollects(c: Core, ask: Ask, now: int)
    requires ask.Granted() !in c.grants && !Remembers(c, ask) && (Muted(c, ask.Exact(), now) || ask.Exact() in c.inflight)
    ensures Collects(c, AskStep(c, ask, now).0, now)
  {
    hide Register, GcSuppressed, Remembers, Muted;
  }

  lemma SuspendedCollects(c: Core, ask: Ask, now: int)
    requires ask.Granted() !in c.grants && !Remembers(c, ask) && !Muted(c, ask.Exact(), now) && ask.Exact() !in c.inflight
    ensures Collects(c, AskStep(c, ask, now).0, now)
  {
    hide Register, GcSuppressed, Remembers, Muted;
  }

  lemma AskOnlyCollects(c: Core, ask: Ask, now: int)
    ensures Collects(c, AskStep(c, ask, now).0, now)
  {
    hide AskStep, Collects, Remembers, Muted;
    if ask.Granted() in c.grants || Remembers(c, ask) {
      AnsweredCollects(c, ask, now);
    } else if Muted(c, ask.Exact(), now) || ask.Exact() in c.inflight {
      MutedCollects(c, ask, now);
    } else {
      SuspendedCollects(c, ask, now);
    }
  }

  lemma AskLeavesMute(s: State, act: Action, call: Ask, ts: int)
    requires MutedSince(s, call, ts) && s.now - ts <= 60000 && act.StartAsk? && act.a !in s.hist.asked
    ensures MutedSince(Next(s, act), call, ts)
  {
    AskOnlyCollects(s.core, act.ask, s.now);
    hide AskStep;
    assert Next(s, act).core == AskStep(s.core, act.ask, s.now).0;
    hide Next;
  }

  lemma QuietLeavesMute(s: State, act: Action, call: Ask, ts: int)
    requires MutedSince(s, call, ts) && !Lifts(s, act, call) && Quiet(s, act)
    ensures MutedSince(Next(s, act), call, ts)
  {
    if act.TurnStarts? {
    } else {
      QuietEffects(s, act);
      hide Next, QuietGrantsEffect, QuietColumnsEffect, QuietFrame;
    }
  }

  lemma StepLeavesMute(s: State, act: Action, call: Ask, ts: int)
    requires MutedSince(s, call, ts) && ts <= s.now && s.now - ts <= 60000 && !Lifts(s, act, call)
    ensures MutedSince(Next(s, act), call, ts) && s.now <= Next(s, act).now
  {
    ClockGoesOn(s, act);
    hide Next, MutedSince;
    match act
    case StartAsk(a, ask) =>
      if a in s.hist.asked { IgnoredLeavesMute(s, act, call, ts); } else { AskLeavesMute(s, act, call, ts); }
    case BridgeSettles(a, loads) =>
      if Resumable(s, a) { ResumeLeavesMute(s, a, loads, call, ts); } else { IgnoredLeavesMute(s, act, call, ts); }
    case UserClicks(id, approved, remember) => ClickLeavesMute(s, id, approved, remember, call, ts);
    case OpClicks(op, id, approved, remember) => OpClickLeavesMute(s, act, call, ts);
    case Timer(id) => TimerLeavesMute(s, id, call, ts);
    case UserReplies(x) => ReplyLeavesMute(s, x, call, ts);
    case EndSession(x) => EndLeavesMute(s, x, call, ts);
    case _ => QuietLeavesMute(s, act, call, ts);
  }

  lemma OpClickLeavesMute(s: State, act: Action, call: Ask, ts: int)
    requires MutedSince(s, call, ts) && ts <= s.now && !Lifts(s, act, call) && act.OpClicks?
    ensures MutedSince(Next(s, act), call, ts)
  {
    hide Next, MutedSince;
    if act.id in s.core.pending {
      OpClickIsClick(s, act.op, act.id, act.approved, act.remember);
      ClickLeavesMute(s, act.id, act.approved, act.remember, call, ts);
    } else {
      QuietLeavesMute(s, act, call, ts);
    }
  }

  lemma IgnoredLeavesMute(s: State, act: Action, call: Ask, ts: int)
    requires MutedSince(s, call, ts)
    requires (act.StartAsk? && act.a in s.hist.asked) || (act.BridgeSettles? && !Resumable(s, act.a))
    ensures MutedSince(Next(s, act), call, ts)
  {
    Ignored(s, act);
    QuietLeavesMute(s, Tick(0), call, ts);
    hide Next;
  }

  lemma ClockGoesOn(s: State, act: Action)
    ensures s.now <= Next(s, act).now
  {
  }

  /** No step of the run lifts the mute. */
  ghost predicate NoneLifts(s: State, acts: seq<Action>, call: Ask)
    decreases |acts|
  {
    acts == [] || (NoneLifts(s, acts[..|acts| - 1], call) && !Lifts(Run(s, acts[..|acts| - 1]), acts[|acts| - 1], call))
  }

  lemma {:induction false} RunLeavesMute(s: State, acts: seq<Action>, call: Ask, ts: int)
    requires MutedSince(s, call, ts) && ts <= s.now && NoneLifts(s, acts, call) && Run(s, acts).now - ts <= 60000
    ensures MutedSince(Run(s, acts), call, ts) && s.now <= Run(s, acts).now
    decreases |acts|
  {
    hide Next, MutedSince, Lifts;
    if acts != [] {
      var front := acts[..|acts| - 1];
      ClockGoesOn(Run(s, front), acts[|acts| - 1]);
      RunLeavesMute(s, front, call, ts);
      StepLeavesMute(Run(s, front), acts[|acts| - 1], call, ts);
    }
  }

  /**
   A denial lasts: Deny is clicked on a card, and within a minute, with no turn, reply, end of the session, crash or
   approval of the same call in between, the same call is asked for again. Without a grant or a remembered approval it is
   denied at once, and no card goes up.
   */
  lemma DenialLasts(s: State, id: CardId, remember: bool, acts: seq<Action>, a: AskId, ask: Ask)
    requires id in s.core.pending && SameCall(s.core.pending[id].ask, ask)
    requires var s1 := Next(s, UserClicks(id, false, remember));
             var s2 := Run(s1, acts);
             && NoneLifts(s1, acts, ask) && s2.now - s.now < 60000
             && a !in s2.hist.asked && !HasGrant(s2.core, ask) && !HasMemory(s2.core, ask)
    ensures var s2 := Run(Next(s, UserClicks(id, false, remember)), acts);
            var s3 := Next(s2, StartAsk(a, ask));
            && a in s3.hist.answers && s3.hist.answers[a].outcome.Denied? && s3.hist.answers[a].why == BySuppression
            && s3.core.pending == s2.core.pending
  {
    var s1 := Next(s, UserClicks(id, false, remember));
    var s2 := Run(s1, acts);
    DenyMutes(s, id, remember, ask);
    RunLeavesMute(s1, acts, ask, s.now);
    AskGets(s2.core, ask, s2.now);
    hide Next, Run, AskStep, NoneLifts, HasGrant, HasMemory, AskFrame, SameTakes;
    var r := AskEffects(s2, a, ask);
  }

  lemma DenyMutes(s: State, id: CardId, remember: bool, call: Ask)
    requires id in s.core.pending && SameCall(s.core.pending[id].ask, call)
    ensures var s1 := Next(s, UserClicks(id, false, remember)); MutedSince(s1, call, s.now) && s1.now == s.now
  {
    ExactMeans(s.core.pending[id].ask, ExactKey(call.session, call.tool, call.args));
    hide SettleCard;
  }

  // ---- memory ----

  predicate Remembered(s: State, session: string, c: CacheKey) { session in s.core.auto && c in s.core.auto[session] }

  lemma StepRemembers(s: State, act: Action, session: string, c: CacheKey)
    requires Remembered(s, session, c) && !act.Crash? && act != EndSession(session)
    ensures Remembered(Next(s, act), session, c)
  {
    hide Next, Remembered, SettledBy;
    if act.StartAsk? && act.a !in s.hist.asked {
      AskRemembers(s, act, session, c);
    } else if act.BridgeSettles? && Resumable(s, act.a) {
      ResumeRemembers(s, act, session, c);
    } else if act.StartAsk? || act.BridgeSettles? {
      Ignored(s, act);
      QuietRemembers(s, Tick(0), session, c);
    } else if Quiet(s, act) {
      QuietRemembers(s, act, session, c);
    } else {
      SettlingRemembers(s, act, session, c);
    }
  }

  lemma AskRemembers(s: State, act: Action, session: string, c: CacheKey)
    requires Remembered(s, session, c) && act.StartAsk? && act.a !in s.hist.asked
    ensures Remembered(Next(s, act), session, c)
  {
    hide Next, AskStep;
    var r := AskEffects(s, act.a, act.ask);
  }

  lemma ResumeRemembers(s: State, act: Action, session: string, c: CacheKey)
    requires Remembered(s, session, c) && act.BridgeSettles? && Resumable(s, act.a)
    ensures Remembered(Next(s, act), session, c)
  {
    hide Next, Find;
    ResumeEffects(s, act.a, act.loads);
  }

  lemma QuietRemembers(s: State, act: Action, session: string, c: CacheKey)
    requires Remembered(s, session, c) && Quiet(s, act)
    ensures Remembered(Next(s, act), session, c)
  {
    hide Next, Quiet, QuietGrantsEffect, QuietSlotsEffect, QuietColumnsEffect;
    QuietEffects(s, act);
  }

  lemma SettlingRemembers(s: State, act: Action, session: string, c: CacheKey)
    requires Remembered(s, session, c) && !Quiet(s, act) && act != EndSession(session)
    requires !act.StartAsk? && !act.BridgeSettles? && !act.Crash?
    ensures Remembered(Next(s, act), session, c)
  {
    hide Next, Remembered;
    match act
    case UserClicks(id, approved, remember) => ClickRemembers(s, id, approved, remember, session, c);
    case OpClicks(op, id, approved, remember) =>
      OpClickIsClick(s, op, id, approved, remember);
      ClickRemembers(s, id, approved, remember, session, c);
    case Timer(id) => TimerRemembers(s, id, session, c);
    case UserReplies(x) => ReplyRemembers(s, x, session, c);
    case EndSession(x) => EndRemembers(s, x, session, c);
  }

  lemma ClickRemembers(s: State, id: CardId, approved: bool, remember: bool, session: string, c: CacheKey)
    requires Remembered(s, session, c)
    ensures Remembered(Next(s, UserClicks(id, approved, remember)), session, c)
  {
    hide SettleCard;
  }

  lemma TimerRemembers(s: State, id: CardId, session: string, c: CacheKey)
    requires Remembered(s, session, c)
    ensures Remembered(Next(s, Timer(id)), session, c)
  {
  }

  lemma ReplyRemembers(s: State, x: string, session: string, c: CacheKey)
    requires Remembered(s, session, c)
    ensures Remembered(Next(s, UserReplies(x)), session, c)
  {
  }

  lemma EndRemembers(s: State, x: string, session: string, c: CacheKey)
    requires Remembered(s, session, c) && x != session
    ensures Remembered(Next(s, EndSession(x)), session, c)
  {
  }

  lemma {:induction false} RunRemembers(s: State, acts: seq<Action>, session: string, c: CacheKey)
    requires Remembered(s, session, c) && forall act :: act in acts ==> !act.Crash? && act != EndSession(session)
    ensures Remembered(Run(s, acts), session, c)
    decreases |acts|
  {
    hide Next, Remembered;
    if acts != [] {
      var front, last := acts[..|acts| - 1], acts[|acts| - 1];
      assert last in acts;
      RunRemembers(s, front, session, c);
      StepRemembers(Run(s, front), last, session, c);
    }
  }

  /**
   "Always allow" lasts: clicked on a card that may be remembered, it answers every later ask of the session for the same
   tool and scope, if that may be remembered too, until the session ends or the process dies.
   */
  lemma AlwaysAllowLasts(s: State, id: CardId, acts: seq<Action>, a: AskId, ask: Ask)
    requires id in s.core.pending && !s.core.pending[id].ask.alwaysAsk && !ask.alwaysAsk
    requires s.core.pending[id].ask.session == ask.session && s.core.pending[id].ask.tool == ask.tool
             && s.core.pending[id].ask.scope == ask.scope
    requires forall act :: act in acts ==> !act.Crash? && act != EndSession(ask.session)
    requires a !in Run(Next(s, UserClicks(id, true, true)), acts).hist.asked
    ensures var s3 := Next(Run(Next(s, UserClicks(id, true, true)), acts), StartAsk(a, ask));
            a in s3.hist.answers && s3.hist.answers[a].outcome.Approved?
  {
    var s1 := Next(s, UserClicks(id, true, true));
    var s2 := Run(s1, acts);
    AllowRemembers(s, id, ask);
    RunRemembers(s1, acts, ask.session, CacheKey(ask.tool, ask.scope));
    AskGets(s2.core, ask, s2.now);
    hide Next, Run, AskStep, HasGrant, HasMute, HasSlot, AskFrame, SameTakes;
    var r := AskEffects(s2, a, ask);
  }

  lemma AllowRemembers(s: State, id: CardId, ask: Ask)
    requires id in s.core.pending && !s.core.pending[id].ask.alwaysAsk && Covers(s.core.pending[id].ask.Cache(), ask)
    requires s.core.pending[id].ask.session == ask.session
    ensures Remembered(Next(s, UserClicks(id, true, true)), ask.session, CacheKey(ask.tool, ask.scope))
  {
    hide SettleCard;
  }
}
