/**
 Every action of the approval protocol falls into one of five shapes: it settles
 cards, asks, resumes an ask, crashes, or is quiet. Each shape is stated once, as a
 relation between the states before and after, and the actions are proved to fit.
 */
module ApprovalEffects {
  import opened Wrappers
  import opened ApprovalModel
  import opened ApprovalProtocol

  // ---- the shape every settling action shares ----

  /** s' is s with the cards of `ids` settled; suppressions, memory and columns aside. */
  ghost predicate SettledBy(s: State, s': State, ids: set<CardId>, how: How, outcome: Outcome) {
    && ids <= s.core.pending.Keys
    && s'.core.pending == s.core.pending - ids
    && s'.core.outcomes == OutcomesAfter(s.core.outcomes, ids, outcome)
    && s'.core.releases == ReleasesAfter(s.core.releases, s.core.pending, ids)
    && s'.core.resolveCalls == s.core.resolveCalls + multiset(ids)
    && s'.core.grants == s.core.grants && s'.core.inflight == s.core.inflight && s'.core.bridge == s.core.bridge
    && s'.core.nextCard == s.core.nextCard && s'.core.nextGrant == s.core.nextGrant
    && s'.now == s.now && s'.bootAt == s.bootAt && s'.suspended == s.suspended
    && s'.hist == Settles(s.hist, ids, how, outcome, s.step, s.now).(
                    closes := s'.hist.closes, cleared := s'.hist.cleared)
    && s'.hist.closes == s.hist.closes + Closing(s.core, s'.core, s.step)
    && s'.hist.cleared >= s.hist.cleared
    && (forall x, t :: (x, t) in s'.hist.cleared ==> (x, t) in s.hist.cleared || t == s.step)
    && s'.core.columns == (if s.core.bridge then ColumnsAfter(s.core.columns, s.core.pending, ids) else s.core.columns)
    && s'.step == s.step + 1
  }

  lemma ClickSettles(s: State, id: CardId, approved: bool, remember: bool)
    requires id in s.core.pending
    ensures SettledBy(s, Next(s, UserClicks(id, approved, remember)), {id}, Clicked(approved, remember), Outcomed(approved, id))
  {
    var s' := Next(s, UserClicks(id, approved, remember));
    SingleCard(s.core, id, Outcomed(approved, id));
    assert multiset({id}) == multiset{id};
  }

  lemma SingleCard(c: Core, id: CardId, outcome: Outcome)
    requires id in c.pending
    ensures OutcomesAfter(c.outcomes, {id}, outcome) == c.outcomes[id := outcome]
    ensures ReleasesAfter(c.releases, c.pending, {id}) == c.releases[id := c.pending[id].ask.Exact()]
    ensures ColumnsWithout(c, c.pending[id].ask, id)
            == if c.bridge then ColumnsAfter(c.columns, c.pending, {id}) else c.columns
  {
  }

  lemma TimerSettles(s: State, id: CardId)
    requires id in s.core.pending && s.now >= s.core.pending[id].deadline
    ensures SettledBy(s, Next(s, Timer(id)), {id}, ByTimer, Denied(TimedOut))
  {
    SingleCard(s.core, id, Denied(TimedOut));
    assert multiset({id}) == multiset{id};
  }

  lemma ReplySettles(s: State, session: string)
    ensures SettledBy(s, Next(s, UserReplies(session)), CardsOf(s.core, session), ByReply, Denied(Superseded))
  {
  }

  lemma EndSettles(s: State, session: string)
    ensures SettledBy(s, Next(s, EndSession(session)), CardsOf(s.core, session), ByTeardown, Denied(TimedOut))
  {
  }

  /** Actions that neither put a card up nor settle one. */
  predicate Quiet(s: State, act: Action) {
    match act
    case StartAsk(_, _) => false
    case BridgeSettles(_, _) => false
    case UserClicks(id, _, _) => id !in s.core.pending
    case OpClicks(_, id, _, _) => id !in s.core.pending
    case Timer(id) => id !in s.core.pending || s.now < s.core.pending[id].deadline
    case UserReplies(_) => false
    case EndSession(_) => false
    case Crash(_) => false
    case _ => true
  }

  /** A settling action, with what it settles. */
  ghost predicate Settler(s: State, act: Action, ids: set<CardId>, how: How, outcome: Outcome) {
    match act
    case UserClicks(id, approved, remember) =>
      id in s.core.pending && ids == {id} && how == Clicked(approved, remember) && outcome == Outcomed(approved, id)
    case OpClicks(_, id, approved, remember) =>
      id in s.core.pending && ids == {id} && how == Clicked(approved, remember) && outcome == Outcomed(approved, id)
    case Timer(id) =>
      id in s.core.pending && s.now >= s.core.pending[id].deadline && ids == {id} && how == ByTimer && outcome == Denied(TimedOut)
    case UserReplies(x) => ids == CardsOf(s.core, x) && how == ByReply && outcome == Denied(Superseded)
    case EndSession(x) => ids == CardsOf(s.core, x) && how == ByTeardown && outcome == Denied(TimedOut)
    case _ => false
  }

  lemma OpClickIsClick(s: State, op: string, id: CardId, approved: bool, remember: bool)
    requires id in s.core.pending
    ensures Next(s, OpClicks(op, id, approved, remember)) == Next(s, UserClicks(id, approved, remember))
  {
  }

  lemma SettlerSettles(s: State, act: Action, ids: set<CardId>, how: How, outcome: Outcome)
    requires Settler(s, act, ids, how, outcome)
    ensures SettledBy(s, Next(s, act), ids, how, outcome)
  {
    hide Next, SettledBy;
    match act
    case UserClicks(id, approved, remember) => ClickSettles(s, id, approved, remember);
    case OpClicks(op, id, approved, remember) =>
      OpClickIsClick(s, op, id, approved, remember);
      ClickSettles(s, id, approved, remember);
    case Timer(id) => TimerSettles(s, id);
    case UserReplies(x) => ReplySettles(s, x);
    case EndSession(x) => EndSettles(s, x);
  }

  /** What a quiet action leaves alone. */
  ghost predicate QuietFrame(s: State, s': State) {
    && s'.core.pending == s.core.pending && s'.core.outcomes == s.core.outcomes
    && s'.core.resolveCalls == s.core.resolveCalls && s'.core.nextCard == s.core.nextCard
    && s'.core.auto == s.core.auto && s'.core.bridge == s.core.bridge
    && s'.suspended == s.suspended && s'.bootAt == s.bootAt && s'.now >= s.now && s'.step == s.step + 1
    && s'.hist.asked == s.hist.asked && s'.hist.answers == s.hist.answers && s'.hist.riding == s.hist.riding
    && s'.hist.cards == s.hist.cards && s'.hist.settled == s.hist.settled
    && s'.hist.taken == s.hist.taken && s'.hist.takeCalls == s.hist.takeCalls
    && s'.hist.cleared == s.hist.cleared && s'.hist.crashes == s.hist.crashes && s'.hist.applied == s.hist.applied
    && s'.hist.consumer == s.hist.consumer
  }

  /** How a quiet action treats one-shot grants. */
  ghost predicate QuietGrantsEffect(s: State, s': State, act: Action) {
    match act
    case GiveGrant(x, t, args) =>
      var g := GrantId(s.core.nextGrant, s.now);
      && s'.core.grants == s.core.grants[GrantKey(x, t, args) := g] && s'.core.nextGrant == s.core.nextGrant + 1
      && s'.hist.given == s.hist.given[g := Given(GrantKey(x, t, args), s.step)] && s'.hist.revoked == s.hist.revoked
    case RevokeGrant(g) =>
      && s'.core.grants == Revoked(s.core.grants, g) && s'.core.nextGrant == s.core.nextGrant
      && s'.hist.given == s.hist.given
      && s'.hist.revoked == (if g in s.hist.revoked || g !in s.hist.given then s.hist.revoked else s.hist.revoked[g := s.step])
    case _ =>
      && s'.core.grants == s.core.grants && s'.core.nextGrant == s.core.nextGrant
      && s'.hist.given == s.hist.given && s'.hist.revoked == s.hist.revoked
  }

  /** How a quiet action treats suppressions and coalescing slots. */
  ghost predicate QuietSlotsEffect(s: State, s': State, act: Action) {
    && (match act
        case TurnStarts(x) =>
          && s'.hist.turns == s.hist.turns + {(x, s.step)}
          && (forall k :: k in s'.core.suppressed ==>
                k.session != x && k in s.core.suppressed && s'.core.suppressed[k] == s.core.suppressed[k])
        case _ => s'.core.suppressed == s.core.suppressed && s'.hist.turns == s.hist.turns)
    && (match act
        case ReleaseSlot(id) =>
          if id in s.core.releases
          then s'.core.inflight == s.core.inflight - {s.core.releases[id]} && s'.core.releases == s.core.releases - {id}
          else s'.core.inflight == s.core.inflight && s'.core.releases == s.core.releases
        case _ => s'.core.inflight == s.core.inflight && s'.core.releases == s.core.releases)
  }

  /** How a quiet action treats the durable columns. */
  ghost predicate QuietColumnsEffect(s: State, s': State, act: Action) {
    match act
    case ExpireColumn(op) =>
      && s'.hist.decisions == s.hist.decisions && s'.hist.closes == s.hist.closes + Closing(s.core, s'.core, s.step)
      && if op in s.core.columns && Expired(s.core.columns[op], s.now) && s.core.columns[op].id !in s.core.pending
         then s'.core.columns == s.core.columns - {op}
              && s'.core.events == s.core.events + multiset{Resolved(op, s.core.columns[op].id, s.core.columns[op].tool,
                                                                     false, Some(TimedOut), true)}
         else s'.core.columns == s.core.columns && s'.core.events == s.core.events
    case OpClicks(op, id, approved, remember) =>
      && s'.hist.closes == s.hist.closes
      && if Awaits(s.core, op, id)
         then s'.core.columns == s.core.columns[op := s.core.columns[op].(decision := Some(Decision(approved, s.now)))]
              && s'.hist.decisions == s.hist.decisions[id := Decision(approved, s.now)]
              && s'.core.events == s.core.events + multiset{Resolved(op, id, s.core.columns[op].tool, approved,
                                                                     if approved then None else Some(Declined), true)}
         else s'.core.columns == s.core.columns && s'.hist.decisions == s.hist.decisions && s'.core.events == s.core.events
    case _ =>
      && s'.core.columns == s.core.columns && s'.core.events == s.core.events
      && s'.hist.decisions == s.hist.decisions && s'.hist.closes == s.hist.closes
  }

  ghost predicate QuietEffect(s: State, s': State, act: Action) {
    && QuietFrame(s, s') && (!act.Tick? ==> s'.now == s.now)
    && QuietGrantsEffect(s, s', act) && QuietSlotsEffect(s, s', act) && QuietColumnsEffect(s, s', act)
  }

  lemma QuietTick(s: State, ms: nat)
    ensures QuietEffect(s, Next(s, Tick(ms)), Tick(ms))
  {
  }

  lemma QuietGive(s: State, act: Action)
    requires act.GiveGrant?
    ensures QuietEffect(s, Next(s, act), act)
  {
  }

  lemma QuietRevoke(s: State, act: Action)
    requires act.RevokeGrant?
    ensures QuietEffect(s, Next(s, act), act)
  {
  }

  lemma QuietRelease(s: State, act: Action)
    requires act.ReleaseSlot?
    ensures QuietEffect(s, Next(s, act), act)
  {
  }

  lemma QuietTurn(s: State, act: Action)
    requires act.TurnStarts?
    ensures QuietEffect(s, Next(s, act), act)
  {
  }

  lemma QuietExpire(s: State, act: Action)
    requires act.ExpireColumn?
    ensures QuietEffect(s, Next(s, act), act)
  {
    if !(act.op in s.core.columns && Expired(s.core.columns[act.op], s.now) && s.core.columns[act.op].id !in s.core.pending) {
      assert Closing(s.core, s.core, s.step) == {};
    }
  }

  lemma QuietClick(s: State, act: Action)
    requires (act.UserClicks? || act.Timer?) && Quiet(s, act)
    ensures QuietEffect(s, Next(s, act), act)
  {
  }

  lemma QuietOpClick(s: State, op: string, id: CardId, approved: bool, remember: bool)
    requires id !in s.core.pending
    ensures QuietEffect(s, Next(s, OpClicks(op, id, approved, remember)), OpClicks(op, id, approved, remember))
  {
    hide Click, Clicks;
    if Awaits(s.core, op, id) {
      QuietDecision(s, op, id, approved, remember);
    }
  }

  lemma QuietDecision(s: State, op: string, id: CardId, approved: bool, remember: bool)
    requires id !in s.core.pending && Awaits(s.core, op, id)
    ensures QuietEffect(s, Next(s, OpClicks(op, id, approved, remember)), OpClicks(op, id, approved, remember))
  {
    hide Click, Clicks;
  }

  lemma QuietEffects(s: State, act: Action)
    requires Quiet(s, act)
    ensures QuietEffect(s, Next(s, act), act)
  {
    hide Next, QuietEffect;
    match act
    case Tick(ms) => QuietTick(s, ms);
    case GiveGrant(_, _, _) => QuietGive(s, act);
    case RevokeGrant(_) => QuietRevoke(s, act);
    case ReleaseSlot(_) => QuietRelease(s, act);
    case TurnStarts(_) => QuietTurn(s, act);
    case ExpireColumn(_) => QuietExpire(s, act);
    case OpClicks(op, id, approved, remember) => QuietOpClick(s, op, id, approved, remember);
    case _ => QuietClick(s, act);
  }

  /** An ask id already used, and a bridge signal nobody waits for, change nothing. */
  lemma Ignored(s: State, act: Action)
    requires (act.StartAsk? && act.a in s.hist.asked) || (act.BridgeSettles? && !Resumable(s, act.a))
    ensures Next(s, act) == Next(s, Tick(0))
  {
  }

  // ---- crashes ----

  /** A crash: memory is gone, the clock has moved, the history and the columns stay. */
  ghost predicate CrashEffect(s: State, s': State) {
    && s'.core == Boot(s.core.columns, s.core.events, s.core.resolveCalls)
    && s'.now > s.now && s'.bootAt == s'.now && s'.suspended == map[] && s'.step == s.step + 1
    && s'.hist == s.hist.(crashes := s.hist.crashes + {s.step})
  }

  lemma CrashEffects(s: State, act: Action)
    requires act.Crash?
    ensures CrashEffect(s, Next(s, act))
  {
  }

  /** The non-quiet actions are asks, settlers and crashes. */
  lemma Settlers(s: State, act: Action) returns (ids: set<CardId>, how: How, outcome: Outcome)
    requires !Quiet(s, act) && !act.StartAsk? && !act.BridgeSettles? && !act.Crash?
    ensures Settler(s, act, ids, how, outcome) && SettledBy(s, Next(s, act), ids, how, outcome)
  {
    hide Next, SettledBy, Outcomed;
    match act
    case UserClicks(id, approved, remember) =>
      ids, how, outcome := {id}, Clicked(approved, remember), Outcomed(approved, id);
      SettlerSettles(s, act, ids, how, outcome);
    case OpClicks(_, id, approved, remember) =>
      ids, how, outcome := {id}, Clicked(approved, remember), Outcomed(approved, id);
      SettlerSettles(s, act, ids, how, outcome);
    case Timer(id) =>
      ids, how, outcome := {id}, ByTimer, Denied(TimedOut);
      SettlerSettles(s, act, ids, how, outcome);
    case UserReplies(x) =>
      ids, how, outcome := CardsOf(s.core, x), ByReply, Denied(Superseded);
      SettlerSettles(s, act, ids, how, outcome);
    case EndSession(x) =>
      ids, how, outcome := CardsOf(s.core, x), ByTeardown, Denied(TimedOut);
      SettlerSettles(s, act, ids, how, outcome);
  }

  // ---- the shape of an ask ----

  /** What the first stretch of an ask leaves alone whatever it ends in. */
  ghost predicate AskFrame(s: State, s': State, a: AskId, ask: Ask) {
    && s'.now == s.now && s'.bootAt == s.bootAt && s'.step == s.step + 1
    && s'.core.bridge == s.core.bridge && s'.core.auto == s.core.auto && s'.core.outcomes == s.core.outcomes
    && s'.core.releases == s.core.releases && s'.core.resolveCalls == s.core.resolveCalls
    && s'.core.columns == s.core.columns && s'.core.events == s.core.events && s'.core.nextGrant == s.core.nextGrant
    && (forall k :: k in s'.core.suppressed ==> k in s.core.suppressed && s'.core.suppressed[k] == s.core.suppressed[k])
    && s'.hist.asked == s.hist.asked[a := ask]
    && s'.hist.given == s.hist.given && s'.hist.revoked == s.hist.revoked && s'.hist.settled == s.hist.settled
    && s'.hist.cleared == s.hist.cleared && s'.hist.turns == s.hist.turns && s'.hist.crashes == s.hist.crashes
    && s'.hist.decisions == s.hist.decisions && s'.hist.applied == s.hist.applied && s'.hist.closes == s.hist.closes
    && s'.hist.consumer == s.hist.consumer
  }

  ghost predicate SameTakes(s: State, s': State) {
    && s'.core.grants == s.core.grants && s'.hist.taken == s.hist.taken && s'.hist.takeCalls == s.hist.takeCalls
  }

  ghost predicate SameCards(s: State, s': State) {
    && s'.core.pending == s.core.pending && s'.core.inflight == s.core.inflight && s'.core.nextCard == s.core.nextCard
    && s'.hist.riding == s.hist.riding && s'.hist.cards == s.hist.cards
  }

  /** Answered at once: by a grant, by memory or by a suppression, and only for the reason named. */
  ghost predicate AskAnswered(s: State, s': State, a: AskId, ask: Ask, outcome: Outcome, why: Why) {
    && SameCards(s, s') && s'.suspended == s.suspended
    && s'.hist.answers == s.hist.answers[a := Answer(outcome, why, s.step, s.now)]
    && (match why
        case ByGrant =>
          && ask.Granted() in s.core.grants && outcome == Approved(OneShot(s.core.grants[ask.Granted()]))
          && s'.core.grants == s.core.grants - {ask.Granted()}
          && s'.hist.taken == s.hist.taken[s.core.grants[ask.Granted()] := Taken(a, s.step)]
          && s'.hist.takeCalls == s.hist.takeCalls + multiset{s.core.grants[ask.Granted()]}
        case ByMemory =>
          && SameTakes(s, s') && outcome == Approved(NoGrant) && !ask.alwaysAsk
          && ask.session in s.core.auto && ask.Cache() in s.core.auto[ask.session]
        case BySuppression =>
          && SameTakes(s, s') && ask.Exact() in s.core.suppressed
          && outcome == Denied(s.core.suppressed[ask.Exact()].reason)
          && s.now - s.core.suppressed[ask.Exact()].ts < DECLINE_SUPPRESS_MS
        case ByRecord(_) => false)
  }

  ghost predicate AskRides(s: State, s': State, a: AskId, ask: Ask, id: CardId) {
    && SameTakes(s, s') && s'.suspended == s.suspended && s'.hist.answers == s.hist.answers
    && s'.core.pending == s.core.pending && s'.core.inflight == s.core.inflight && s'.core.nextCard == s.core.nextCard
    && s'.hist.cards == s.hist.cards && s'.hist.riding == s.hist.riding[a := id]
    && ask.Exact() in s.core.inflight && id == s.core.inflight[ask.Exact()]
  }

  /** A card goes up. */
  ghost predicate Opened(s: State, s': State, a: AskId, ask: Ask, id: CardId, requestedAt: int, shadowed: bool) {
    && SameTakes(s, s') && s'.hist.answers == s.hist.answers
    && s'.core.pending == s.core.pending[id := Card(ask, Deadline(requestedAt, s.now))]
    && s'.core.inflight == s.core.inflight[ask.Exact() := id]
    && s'.hist.riding == s.hist.riding[a := id]
    && s'.hist.cards == s.hist.cards[id := CardInfo(ask, requestedAt, s.now, shadowed, s.step)]
  }

  ghost predicate AskEffect(s: State, s': State, a: AskId, ask: Ask, r: Step) {
    && AskFrame(s, s', a, ask)
    && match r
       case Returned(outcome, why) => AskAnswered(s, s', a, ask, outcome, why)
       case Rides(id) => AskRides(s, s', a, ask, id)
       case Opens(id, at) =>
         && Opened(s, s', a, ask, id, at, false) && s'.suspended == s.suspended
         && ask.op.None? && at == s.now && id == CardId(s.core.nextCard, s.now) && s'.core.nextCard == s.core.nextCard + 1
         && ask.Exact() !in s.core.inflight
       case Suspends(id) =>
         && SameTakes(s, s') && s'.hist.answers == s.hist.answers && s'.hist.riding == s.hist.riding
         && s'.hist.cards == s.hist.cards && s'.core.pending == s.core.pending && s'.core.inflight == s.core.inflight
         && ask.op.Some? && id == CardId(s.core.nextCard, s.now) && s'.core.nextCard == s.core.nextCard + 1
         && s'.suspended == s.suspended[a := Suspension(ask, id)]
  }

  lemma AskByGrant(s: State, a: AskId, ask: Ask)
    requires a !in s.hist.asked && ask.Granted() in s.core.grants
    ensures AskEffect(s, Next(s, StartAsk(a, ask)), a, ask, AskStep(s.core, ask, s.now).1)
  {
  }

  lemma AskByMemory(s: State, a: AskId, ask: Ask)
    requires a !in s.hist.asked && ask.Granted() !in s.core.grants && Remembers(s.core, ask)
    ensures AskEffect(s, Next(s, StartAsk(a, ask)), a, ask, AskStep(s.core, ask, s.now).1)
  {
  }

  lemma AskMuted(s: State, a: AskId, ask: Ask)
    requires a !in s.hist.asked && ask.Granted() !in s.core.grants && !Remembers(s.core, ask)
    requires Muted(s.core, ask.Exact(), s.now)
    ensures AskEffect(s, Next(s, StartAsk(a, ask)), a, ask, AskStep(s.core, ask, s.now).1)
  {
    hide Remembers;
  }

  lemma AskCoalesced(s: State, a: AskId, ask: Ask)
    requires a !in s.hist.asked && ask.Granted() !in s.core.grants && !Remembers(s.core, ask)
    requires !Muted(s.core, ask.Exact(), s.now) && ask.Exact() in s.core.inflight
    ensures AskEffect(s, Next(s, StartAsk(a, ask)), a, ask, AskStep(s.core, ask, s.now).1)
  {
    hide Remembers, Muted;
  }

  lemma AskSuspended(s: State, a: AskId, ask: Ask)
    requires a !in s.hist.asked && ask.Granted() !in s.core.grants && !Remembers(s.core, ask)
    requires !Muted(s.core, ask.Exact(), s.now) && ask.Exact() !in s.core.inflight && ask.op.Some?
    ensures AskEffect(s, Next(s, StartAsk(a, ask)), a, ask, AskStep(s.core, ask, s.now).1)
  {
    hide Remembers, Muted;
  }

  lemma AskOpens(s: State, a: AskId, ask: Ask)
    requires a !in s.hist.asked && ask.Granted() !in s.core.grants && !Remembers(s.core, ask)
    requires !Muted(s.core, ask.Exact(), s.now) && ask.Exact() !in s.core.inflight && ask.op.None?
    ensures AskEffect(s, Next(s, StartAsk(a, ask)), a, ask, AskStep(s.core, ask, s.now).1)
  {
    hide Remembers, Muted;
  }

  lemma AskEffects(s: State, a: AskId, ask: Ask) returns (r: Step)
    requires a !in s.hist.asked
    ensures r == AskStep(s.core, ask, s.now).1
    ensures AskEffect(s, Next(s, StartAsk(a, ask)), a, ask, r)
  {
    hide Next, AskStep, AskEffect, Remembers, Muted;
    r := AskStep(s.core, ask, s.now).1;
    if ask.Granted() in s.core.grants {
      AskByGrant(s, a, ask);
    } else if Remembers(s.core, ask) {
      AskByMemory(s, a, ask);
    } else if Muted(s.core, ask.Exact(), s.now) {
      AskMuted(s, a, ask);
    } else if ask.Exact() in s.core.inflight {
      AskCoalesced(s, a, ask);
    } else if ask.op.Some? {
      AskSuspended(s, a, ask);
    } else {
      AskOpens(s, a, ask);
    }
  }

  // ---- the shape of a resumed ask ----

  /** What the op's column is to a re-ask once the bridge load has settled. */
  datatype Found = Nothing | Verdict(r: Record) | Window(r: Record) | Stale(r: Record)

  function Find(c: Core, ask: Ask, loads: bool, now: int): Found
    requires ask.op.Some?
  {
    var op := ask.op.value;
    if !(c.bridge || loads) || op !in c.columns || c.columns[op].id in c.pending then Nothing
    else if Expired(c.columns[op], now) || !SameAsk(c.columns[op], ask.tool, ask.Preview()) then Stale(c.columns[op])
    else if c.columns[op].decision.Some? then Verdict(c.columns[op])
    else Window(c.columns[op])
  }

  ghost predicate ResumeFrame(s: State, s': State, a: AskId, loads: bool) {
    && s'.now == s.now && s'.bootAt == s.bootAt && s'.step == s.step + 1
    && s'.suspended == s.suspended - {a}
    && s'.core.bridge == (s.core.bridge || loads) && s'.core.auto == s.core.auto
    && s'.core.outcomes == s.core.outcomes && s'.core.suppressed == s.core.suppressed
    && s'.core.releases == s.core.releases && s'.core.resolveCalls == s.core.resolveCalls
    && s'.core.nextCard == s.core.nextCard && s'.core.nextGrant == s.core.nextGrant
    && SameTakes(s, s') && s'.hist.asked == s.hist.asked
    && s'.hist.given == s.hist.given && s'.hist.revoked == s.hist.revoked && s'.hist.settled == s.hist.settled
    && s'.hist.cleared == s.hist.cleared && s'.hist.turns == s.hist.turns && s'.hist.crashes == s.hist.crashes
    && s'.hist.decisions == s.hist.decisions
  }

  ghost predicate ResumeOpens(s: State, s': State, a: AskId, ask: Ask, id: CardId, at: int)
    requires ask.op.Some?
  {
    && Opened(s, s', a, ask, id, at, s'.core.bridge)
    && s'.hist.applied == s.hist.applied && s'.hist.consumer == s.hist.consumer
    && s'.core.columns == if s'.core.bridge
                          then s.core.columns[ask.op.value := Record(id, ask.tool, ask.Preview(), at, None)]
                          else s.core.columns
  }

  ghost predicate ResumeEffect(s: State, s': State, a: AskId, ask: Ask, id: CardId, loads: bool)
    requires ask.op.Some?
  {
    var op := ask.op.value;
    && ResumeFrame(s, s', a, loads)
    && match Find(s.core, ask, loads, s.now)
       case Verdict(r) =>
         && SameCards(s, s') && r == s.core.columns[op]
         && s'.hist.answers == s.hist.answers[a := Answer(if r.decision.value.approved then Approved(NoGrant) else Denied(Declined),
                                                          ByRecord(r.id), s.step, s.now)]
         && s'.hist.applied == s.hist.applied + multiset{r.id} && s'.hist.consumer == s.hist.consumer[r.id := a]
         && s'.core.columns == s.core.columns - {op} && s'.core.events == s.core.events
         && s'.hist.closes == s.hist.closes + {(op, s.step)}
       case Window(r) =>
         && ResumeOpens(s, s', a, ask, id, r.requestedAt) && s'.hist.closes == s.hist.closes
         && s'.core.events == s.core.events + multiset{Requested(op, id, ask.tool)}
       case Stale(r) =>
         && ResumeOpens(s, s', a, ask, id, s.now) && s'.hist.closes == s.hist.closes + {(op, s.step)}
         && s'.core.events == s.core.events + multiset{StaleEvent(op, r, s.now)} + multiset{Requested(op, id, ask.tool)}
       case Nothing =>
         && ResumeOpens(s, s', a, ask, id, s.now) && s'.hist.closes == s.hist.closes
         && s'.core.events == if s'.core.bridge then s.core.events + multiset{Requested(op, id, ask.tool)} else s.core.events
  }

  predicate Resumable(s: State, a: AskId) {
    a in s.suspended && s.suspended[a].ask.op.Some?
  }

  lemma NothingReconciled(c: Core, ask: Ask, loads: bool, now: int)
    requires ask.op.Some? && Find(c, ask, loads, now).Nothing?
    ensures var c0 := c.(bridge := c.bridge || loads);
            Reconcile(c0, ask.op.value, ask.tool, ask.Preview(), now) == (c0, NoSurvivor)
  {
  }

  lemma ResumeNothing(s: State, a: AskId, loads: bool)
    requires Resumable(s, a) && Find(s.core, s.suspended[a].ask, loads, s.now).Nothing?
    ensures ResumeEffect(s, Next(s, BridgeSettles(a, loads)), a, s.suspended[a].ask, s.suspended[a].id, loads)
  {
    NothingReconciled(s.core, s.suspended[a].ask, loads, s.now);
    hide Reconcile;
  }

  lemma ResumeVerdict(s: State, a: AskId, loads: bool)
    requires Resumable(s, a) && Find(s.core, s.suspended[a].ask, loads, s.now).Verdict?
    ensures ResumeEffect(s, Next(s, BridgeSettles(a, loads)), a, s.suspended[a].ask, s.suspended[a].id, loads)
  {
    hide Expired, SameAsk;
  }

  lemma ResumeWindow(s: State, a: AskId, loads: bool)
    requires Resumable(s, a) && Find(s.core, s.suspended[a].ask, loads, s.now).Window?
    ensures ResumeEffect(s, Next(s, BridgeSettles(a, loads)), a, s.suspended[a].ask, s.suspended[a].id, loads)
  {
    hide Expired, SameAsk;
  }

  lemma PutOver(columns: map<string, Record>, op: string, r: Record)
    ensures (columns - {op})[op := r] == columns[op := r]
  {
  }

  function StaleEvent(op: string, r: Record, now: int): DurableEvent {
    Resolved(op, r.id, r.tool, false, Some(if Expired(r, now) then TimedOut else Superseded), true)
  }

  lemma StaleReconciled(c: Core, ask: Ask, loads: bool, now: int)
    requires ask.op.Some? && Find(c, ask, loads, now).Stale?
    ensures var op, r := ask.op.value, c.columns[ask.op.value];
            Reconcile(c.(bridge := c.bridge || loads), op, ask.tool, ask.Preview(), now)
            == (c.(bridge := true, columns := c.columns - {op}, events := c.events + multiset{StaleEvent(op, r, now)}), NoSurvivor)
  {
    hide Expired, SameAsk;
  }

  lemma StaleStep(c: Core, id: CardId, ask: Ask, loads: bool, now: int)
    requires ask.op.Some? && Find(c, ask, loads, now).Stale?
    ensures var op, r := ask.op.value, c.columns[ask.op.value];
            ResumeStep(c, id, ask, loads, now) ==
            (c.(bridge := true,
                pending := c.pending[id := Card(ask, Deadline(now, now))],
                columns := c.columns[op := Record(id, ask.tool, ask.Preview(), now, None)],
                events := c.events + multiset{StaleEvent(op, r, now)} + multiset{Requested(op, id, ask.tool)},
                inflight := c.inflight[ask.Exact() := id]),
             Opens(id, now))
  {
    StaleReconciled(c, ask, loads, now);
    PutOver(c.columns, ask.op.value, Record(id, ask.tool, ask.Preview(), now, None));
    hide Reconcile, Find, StaleEvent;
  }

  lemma ResumeStale(s: State, a: AskId, loads: bool)
    requires Resumable(s, a) && Find(s.core, s.suspended[a].ask, loads, s.now).Stale?
    ensures ResumeEffect(s, Next(s, BridgeSettles(a, loads)), a, s.suspended[a].ask, s.suspended[a].id, loads)
  {
    StaleStep(s.core, s.suspended[a].id, s.suspended[a].ask, loads, s.now);
    StaleReconciled(s.core, s.suspended[a].ask, loads, s.now);
    hide ResumeStep, Reconcile;
  }

  lemma ResumeEffects(s: State, a: AskId, loads: bool)
    requires Resumable(s, a)
    ensures ResumeEffect(s, Next(s, BridgeSettles(a, loads)), a, s.suspended[a].ask, s.suspended[a].id, loads)
  {
    hide Next, ResumeEffect, Find;
    match Find(s.core, s.suspended[a].ask, loads, s.now)
    case Nothing => ResumeNothing(s, a, loads);
    case Verdict(_) => ResumeVerdict(s, a, loads);
    case Window(_) => ResumeWindow(s, a, loads);
    case Stale(_) => ResumeStale(s, a, loads);
  }

  /** A resumed ask in outline: a card goes up, or the ask is answered at once. */
  ghost predicate ResumeOutline(s: State, s': State, a: AskId, ask: Ask, id: CardId, loads: bool,
                                up: bool, at: int, answer: Answer) {
    && ResumeFrame(s, s', a, loads)
    && answer.step == s.step && answer.at == s.now && answer.why.ByRecord?
    && if up then Opened(s, s', a, ask, id, at, s'.core.bridge)
       else SameCards(s, s') && s'.hist.answers == s.hist.answers[a := answer]
  }

  lemma ResumeOutlined(s: State, s': State, a: AskId, ask: Ask, id: CardId, loads: bool)
    returns (up: bool, at: int, answer: Answer)
    requires ask.op.Some? && ResumeEffect(s, s', a, ask, id, loads)
    ensures ResumeOutline(s, s', a, ask, id, loads, up, at, answer)
    ensures up <==> !Find(s.core, ask, loads, s.now).Verdict?
  {
    hide ResumeFrame;
    answer := Answer(Denied(Declined), ByRecord(id), s.step, s.now);
    match Find(s.core, ask, loads, s.now)
    case Verdict(r) =>
      up, at := false, s.now;
      answer := Answer(if r.decision.value.approved then Approved(NoGrant) else Denied(Declined), ByRecord(r.id), s.step, s.now);
    case Window(r) => up, at := true, r.requestedAt;
    case Stale(r) => up, at := true, s.now;
    case Nothing => up, at := true, s.now;
  }

  // ---- what settling does to memory and suppressions ----

  /** A Deny click or an expiry mutes the call; nothing else does. */
  predicate MutesAs(how: How, reason: Reason) {
    match how
    case Clicked(approved, _) => !approved && reason == Declined
    case ByTimer => reason == TimedOut
    case _ => false
  }

  ghost predicate MemoryEffect(s: State, s': State, ids: set<CardId>, how: How)
    requires ids <= s.core.pending.Keys
  {
    && (forall x, c :: x in s'.core.auto && c in s'.core.auto[x] ==>
          || (x in s.core.auto && c in s.core.auto[x])
          || (how == Clicked(true, true) && exists id :: id in ids && Remembering(s.core.pending[id].ask, x, c)))
    && (forall x :: (x, s.step) in s'.hist.cleared && (x, s.step) !in s.hist.cleared ==> x !in s'.core.auto)
    && s'.hist.turns == s.hist.turns
  }

  predicate Remembering(ask: Ask, x: string, c: CacheKey) {
    ask.session == x && ask.Cache() == c && !ask.alwaysAsk
  }

  ghost predicate MuteEffect(s: State, s': State, ids: set<CardId>, how: How)
    requires ids <= s.core.pending.Keys
  {
    forall k :: k in s'.core.suppressed ==>
      || (k in s.core.suppressed && s.core.suppressed[k] == s'.core.suppressed[k]
          && ((k.session, s.step) in s'.hist.cleared ==> (k.session, s.step) in s.hist.cleared))
      || (MutesAs(how, s'.core.suppressed[k].reason) && s'.core.suppressed[k].ts == s.now
          && s'.hist.cleared == s.hist.cleared
          && exists id :: id in ids && s.core.pending[id].ask.Exact() == k)
  }

  lemma ClickMemory(s: State, id: CardId, approved: bool, remember: bool)
    requires id in s.core.pending
    ensures var s' := Next(s, UserClicks(id, approved, remember));
            MemoryEffect(s, s', {id}, Clicked(approved, remember)) && MuteEffect(s, s', {id}, Clicked(approved, remember))
  {
    hide SettleCard;
    assert id in {id};
    var s' := Next(s, UserClicks(id, approved, remember));
    var ask := s.core.pending[id].ask;
    assert s'.core.suppressed == if approved then s.core.suppressed - {ask.Exact()}
                                 else s.core.suppressed[ask.Exact() := Suppression(s.now, Declined)];
    assert s'.hist.cleared == s.hist.cleared;
  }

  lemma TimerMemory(s: State, id: CardId)
    requires id in s.core.pending && s.now >= s.core.pending[id].deadline
    ensures var s' := Next(s, Timer(id));
            MemoryEffect(s, s', {id}, ByTimer) && MuteEffect(s, s', {id}, ByTimer)
  {
    assert id in {id};
  }

  lemma ReplyMemory(s: State, x: string)
    ensures var s' := Next(s, UserReplies(x));
            MemoryEffect(s, s', CardsOf(s.core, x), ByReply) && MuteEffect(s, s', CardsOf(s.core, x), ByReply)
  {
  }

  lemma EndMemory(s: State, x: string)
    ensures MemoryEffect(s, Next(s, EndSession(x)), CardsOf(s.core, x), ByTeardown)
  {
  }

  lemma EndMutes(s: State, x: string)
    ensures MuteEffect(s, Next(s, EndSession(x)), CardsOf(s.core, x), ByTeardown)
  {
    var s' := Next(s, EndSession(x));
    assert s'.hist.cleared == s.hist.cleared + {(x, s.step)};
    assert s'.core.suppressed == ClearDeclines(s.core, x).suppressed;
    hide Next;
  }

  lemma SettlerMemory(s: State, act: Action, ids: set<CardId>, how: How, outcome: Outcome)
    requires Settler(s, act, ids, how, outcome) && ids <= s.core.pending.Keys
    ensures MemoryEffect(s, Next(s, act), ids, how) && MuteEffect(s, Next(s, act), ids, how)
  {
    hide Next, MemoryEffect, MuteEffect;
    match act
    case UserClicks(id, approved, remember) => ClickMemory(s, id, approved, remember);
    case OpClicks(op, id, approved, remember) =>
      OpClickIsClick(s, op, id, approved, remember);
      ClickMemory(s, id, approved, remember);
    case Timer(id) => TimerMemory(s, id);
    case UserReplies(x) => ReplyMemory(s, x);
    case EndSession(x) =>
      EndMemory(s, x);
      EndMutes(s, x);
  }

  // ---- what settling writes to the durable event log ----

  /** One resolve event for each op-scoped card of `ids`, telling how it ended. */
  function OutcomeEvents(pending: map<CardId, Card>, ids: set<CardId>, outcome: Outcome): set<DurableEvent>
    requires ids <= pending.Keys
  {
    set id | id in ids && pending[id].ask.op.Some? :: SettleEvent(id, pending[id].ask, outcome)
  }

  function SettleEvent(id: CardId, ask: Ask, outcome: Outcome): (e: DurableEvent)
    requires ask.op.Some?
    ensures e.Resolved? && e.id == id
  {
    ResolvedEvent(id, ask, outcome.Approved?, if outcome.Denied? then Some(outcome.reason) else None)
  }

  ghost predicate EventsEffect(s: State, s': State, ids: set<CardId>, outcome: Outcome)
    requires ids <= s.core.pending.Keys
  {
    s'.core.events == if s.core.bridge then s.core.events + multiset(OutcomeEvents(s.core.pending, ids, outcome))
                      else s.core.events
  }

  lemma OneEvent(c: Core, id: CardId, outcome: Outcome)
    requires id in c.pending
    ensures EventsWith(c, c.pending[id].ask, id, outcome)
            == if c.bridge then c.events + multiset(OutcomeEvents(c.pending, {id}, outcome)) else c.events
  {
    if c.pending[id].ask.op.Some? {
      assert OutcomeEvents(c.pending, {id}, outcome) == {SettleEvent(id, c.pending[id].ask, outcome)};
    } else {
      assert OutcomeEvents(c.pending, {id}, outcome) == {};
    }
  }

  lemma BatchEvents(pending: map<CardId, Card>, ids: set<CardId>, reason: Reason)
    requires ids <= pending.Keys
    ensures SettleEvents(pending, ids, reason) == OutcomeEvents(pending, ids, Denied(reason))
  {
  }

  lemma ClickEvents(s: State, id: CardId, approved: bool, remember: bool)
    requires id in s.core.pending
    ensures EventsEffect(s, Next(s, UserClicks(id, approved, remember)), {id}, Outcomed(approved, id))
  {
    OneEvent(s.core, id, Outcomed(approved, id));
    hide EventsWith, OutcomeEvents;
  }

  lemma TimerEvents(s: State, id: CardId)
    requires id in s.core.pending && s.now >= s.core.pending[id].deadline
    ensures EventsEffect(s, Next(s, Timer(id)), {id}, Denied(TimedOut))
  {
    OneEvent(s.core, id, Denied(TimedOut));
    hide EventsWith, OutcomeEvents;
  }

  lemma BulkEvents(s: State, x: string)
    ensures EventsEffect(s, Next(s, UserReplies(x)), CardsOf(s.core, x), Denied(Superseded))
    ensures EventsEffect(s, Next(s, EndSession(x)), CardsOf(s.core, x), Denied(TimedOut))
  {
    BatchEvents(s.core.pending, CardsOf(s.core, x), Superseded);
    BatchEvents(s.core.pending, CardsOf(s.core, x), TimedOut);
    hide SettleEvents, OutcomeEvents;
  }

  lemma SettlerEvents(s: State, act: Action, ids: set<CardId>, how: How, outcome: Outcome)
    requires Settler(s, act, ids, how, outcome) && ids <= s.core.pending.Keys
    ensures EventsEffect(s, Next(s, act), ids, outcome)
  {
    hide Next, EventsEffect;
    match act
    case UserClicks(id, approved, remember) => ClickEvents(s, id, approved, remember);
    case OpClicks(op, id, approved, remember) =>
      OpClickIsClick(s, op, id, approved, remember);
      ClickEvents(s, id, approved, remember);
    case Timer(id) => TimerEvents(s, id);
    case UserReplies(x) => BulkEvents(s, x);
    case EndSession(x) => BulkEvents(s, x);
  }
}
