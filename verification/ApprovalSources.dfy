/**
 What the observer has on record was done: every entry of the history goes back to the action of the run at its step, so
 the sources of a yes are acts of the user.
 */
module ApprovalSources {
  import opened Wrappers
  import opened ApprovalModel
  import opened ApprovalKeys
  import opened ApprovalProtocol
  import opened ApprovalEffects
  import opened ApprovalInvariants
  import opened ApprovalTheorems

  /** The action taken at step t of a run; the first step is 1. */
  predicate Took(acts: seq<Action>, t: nat, act: Action) { 1 <= t <= |acts| && acts[t - 1] == act }

  predicate CrashAt(acts: seq<Action>, t: nat) { 1 <= t <= |acts| && acts[t - 1].Crash? }

  predicate IsGrant(act: Action, k: ExactKey) {
    act.GiveGrant? && act.session == k.session && act.tool == k.tool && OwnArgs(k.args, act.args)
  }

  /** What settles a card in this way. */
  predicate Settling(act: Action, id: CardId, how: How, session: string) {
    match how
    case Clicked(approved, remember) =>
      act == UserClicks(id, approved, remember)
      || (act.OpClicks? && act.id == id && act.approved == approved && act.remember == remember)
    case ByTimer => act == Timer(id)
    case ByReply => act == UserReplies(session)
    case ByTeardown => act == EndSession(session)
  }

  ghost predicate AsksLogged(h: History, acts: seq<Action>) {
    forall a :: a in h.asked ==> exists t :: Took(acts, t, StartAsk(a, h.asked[a]))
  }

  ghost predicate GrantsLogged(h: History, acts: seq<Action>) {
    && (forall g :: g in h.given ==> 1 <= h.given[g].step <= |acts| && IsGrant(acts[h.given[g].step - 1], h.given[g].key))
    && (forall g, t :: Took(acts, t, RevokeGrant(g)) && g in h.given && h.given[g].step < t ==> g in h.revoked && h.revoked[g] <= t)
  }

  ghost predicate SettledLogged(h: History, acts: seq<Action>) {
    forall id :: id in h.settled && id in h.cards ==>
      1 <= h.settled[id].step <= |acts| && Settling(acts[h.settled[id].step - 1], id, h.settled[id].how, h.cards[id].ask.session)
  }

  ghost predicate MarksLogged(h: History, acts: seq<Action>) {
    && (forall x, t: nat :: (x, t) in h.cleared <==> Took(acts, t, EndSession(x)))
    && (forall x, t: nat :: (x, t) in h.turns <==> Took(acts, t, TurnStarts(x)))
    && (forall t: nat :: t in h.crashes <==> CrashAt(acts, t))
  }

  /** At step t the op's surface answered for this card. */
  predicate RecordsAt(acts: seq<Action>, t: nat, id: CardId, approved: bool, op: Option<string>) {
    && 1 <= t <= |acts|
    && var act := acts[t - 1]; act.OpClicks? && act.id == id && act.approved == approved && Some(act.op) == op
  }

  ghost predicate DecisionsLogged(h: History, acts: seq<Action>) {
    forall id :: id in h.decisions && id in h.cards ==>
      exists t: nat :: RecordsAt(acts, t, id, h.decisions[id].approved, h.cards[id].ask.op)
  }

  ghost predicate Logged(s: State, acts: seq<Action>) {
    && s.step == |acts| + 1
    && AsksLogged(s.hist, acts) && GrantsLogged(s.hist, acts) && SettledLogged(s.hist, acts)
    && MarksLogged(s.hist, acts) && DecisionsLogged(s.hist, acts)
  }

  lemma TookMore(acts: seq<Action>, act: Action)
    ensures forall t, b :: Took(acts + [act], t, b) <==> Took(acts, t, b) || (t == |acts| + 1 && b == act)
    ensures forall t :: CrashAt(acts + [act], t) <==> CrashAt(acts, t) || (t == |acts| + 1 && act.Crash?)
    ensures forall t, id, yes, op :: RecordsAt(acts, t, id, yes, op) ==> RecordsAt(acts + [act], t, id, yes, op)
    ensures forall i :: 0 <= i < |acts| ==> (acts + [act])[i] == acts[i]
  {
  }

  /** The parts of the history a step may leave alone. */
  ghost predicate SameLog(h: History, h': History) {
    && h'.given == h.given && h'.revoked == h.revoked && h'.settled == h.settled && h'.cleared == h.cleared
    && h'.turns == h.turns && h'.crashes == h.crashes && h'.decisions == h.decisions
  }

  lemma AsksGrow(h: History, h': History, acts: seq<Action>, act: Action)
    requires AsksLogged(h, acts)
    requires h'.asked == h.asked || (act.StartAsk? && h'.asked == h.asked[act.a := act.ask])
    ensures AsksLogged(h', acts + [act])
  {
    TookMore(acts, act);
    forall a | a in h'.asked ensures exists t :: Took(acts + [act], t, StartAsk(a, h'.asked[a])) {
      if a in h.asked && h'.asked[a] == h.asked[a] {
        var t :| Took(acts, t, StartAsk(a, h.asked[a]));
        assert Took(acts + [act], t, StartAsk(a, h'.asked[a]));
      } else {
        assert Took(acts + [act], |acts| + 1, StartAsk(a, h'.asked[a]));
      }
    }
  }

  lemma CardsKept(h: History, h': History, acts: seq<Action>, act: Action)
    requires SettledLogged(h, acts) && DecisionsLogged(h, acts)
    requires h'.settled == h.settled && h'.decisions == h.decisions
    requires forall id :: id in h'.cards && (id in h.settled || id in h.decisions) ==> id in h.cards && h'.cards[id] == h.cards[id]
    ensures SettledLogged(h', acts + [act]) && DecisionsLogged(h', acts + [act])
  {
    TookMore(acts, act);
    forall id | id in h'.decisions && id in h'.cards
      ensures exists t: nat :: RecordsAt(acts + [act], t, id, h'.decisions[id].approved, h'.cards[id].ask.op)
    {
      var t: nat :| RecordsAt(acts, t, id, h.decisions[id].approved, h.cards[id].ask.op);
      assert RecordsAt(acts + [act], t, id, h'.decisions[id].approved, h'.cards[id].ask.op);
    }
  }

  lemma MarksKept(h: History, h': History, acts: seq<Action>, act: Action)
    requires MarksLogged(h, acts)
    requires h'.cleared == (if act.EndSession? then h.cleared + {(act.session, |acts| + 1)} else h.cleared)
    requires h'.turns == (if act.TurnStarts? then h.turns + {(act.session, |acts| + 1)} else h.turns)
    requires h'.crashes == if act.Crash? then h.crashes + {|acts| + 1} else h.crashes
    ensures MarksLogged(h', acts + [act])
  {
    TookMore(acts, act);
  }

  lemma GrantsKept(h: History, h': History, acts: seq<Action>, act: Action)
    requires GrantsLogged(h, acts) && !act.RevokeGrant? && h'.given == h.given && h'.revoked == h.revoked
    ensures GrantsLogged(h', acts + [act])
  {
    TookMore(acts, act);
  }

  // ---- step by step ----

  lemma LoggedByAsk(s: State, acts: seq<Action>, act: Action)
    requires Invariant(s) && Logged(s, acts) && act.StartAsk? && act.a !in s.hist.asked
    ensures Logged(Next(s, act), acts + [act])
  {
    hide Next, AskStep, Invariant, SameTakes, AsksLogged, GrantsLogged, SettledLogged, MarksLogged, DecisionsLogged;
    var s' := Next(s, act);
    var r := AskEffects(s, act.a, act.ask);
    RecordedCards(s);
    IdsAreNew(s);
    NewCardUnrecorded(s);
    AsksGrow(s.hist, s'.hist, acts, act);
    CardsKept(s.hist, s'.hist, acts, act);
    MarksKept(s.hist, s'.hist, acts, act);
    GrantsKept(s.hist, s'.hist, acts, act);
  }

  /** Settled and decided cards are on record. */
  lemma RecordedCards(s: State)
    requires Invariant(s)
    ensures forall id :: id in s.hist.settled || id in s.hist.decisions ==> id in s.hist.cards
  {
    hide CardIds, AskIds, Steps, Marks, Promises, Grants, Memory, Mutes, Columns, Answers, Events, Coalesced;
  }

  lemma NewCardUnrecorded(s: State)
    requires Invariant(s)
    ensures CardId(s.core.nextCard, s.now) !in s.hist.cards
    ensures forall a :: a in s.suspended ==> s.suspended[a].id !in s.hist.cards
  {
    hide AskIds, Steps, Marks, Promises, Grants, Memory, Mutes, Columns, Answers, Events, Coalesced, Cards, Verdicts;
  }

  lemma LoggedByResume(s: State, acts: seq<Action>, act: Action)
    requires Invariant(s) && Logged(s, acts) && act.BridgeSettles? && Resumable(s, act.a)
    ensures Logged(Next(s, act), acts + [act])
  {
    hide Next, Find, Invariant, SameTakes, AsksLogged, GrantsLogged, SettledLogged, MarksLogged, DecisionsLogged, ResumeEffect;
    var s' := Next(s, act);
    ResumeEffects(s, act.a, act.loads);
    var up, at, answer := ResumeOutlined(s, s', act.a, s.suspended[act.a].ask, s.suspended[act.a].id, act.loads);
    RecordedCards(s);
    NewCardUnrecorded(s);
    AsksGrow(s.hist, s'.hist, acts, act);
    CardsKept(s.hist, s'.hist, acts, act);
    MarksKept(s.hist, s'.hist, acts, act);
    GrantsKept(s.hist, s'.hist, acts, act);
  }

  lemma LoggedByCrash(s: State, acts: seq<Action>, act: Action)
    requires Logged(s, acts) && act.Crash?
    ensures Logged(Next(s, act), acts + [act])
  {
    hide Next, AsksLogged, GrantsLogged, SettledLogged, MarksLogged, DecisionsLogged;
    var s' := Next(s, act);
    CrashEffects(s, act);
    AsksGrow(s.hist, s'.hist, acts, act);
    CardsKept(s.hist, s'.hist, acts, act);
    MarksKept(s.hist, s'.hist, acts, act);
    GrantsKept(s.hist, s'.hist, acts, act);
  }

  lemma LoggedBySettling(s: State, acts: seq<Action>, act: Action)
    requires Invariant(s) && Logged(s, acts) && !Quiet(s, act) && !act.StartAsk? && !act.BridgeSettles? && !act.Crash?
    ensures Logged(Next(s, act), acts + [act])
  {
    hide Next, Invariant, AsksLogged, GrantsLogged, SettledLogged, MarksLogged, DecisionsLogged, Quiet, SettledBy;
    var s' := Next(s, act);
    var ids, how, outcome := Settlers(s, act);
    SettlingHistory(s, s', act, ids, how, outcome);
    AsksGrow(s.hist, s'.hist, acts, act);
    MarksKept(s.hist, s'.hist, acts, act);
    GrantsKept(s.hist, s'.hist, acts, act);
    SettlingLogged(s, s', acts, act, ids, how, outcome);
  }

  lemma SettlingHistory(s: State, s': State, act: Action, ids: set<CardId>, how: How, outcome: Outcome)
    requires s' == Next(s, act) && Settler(s, act, ids, how, outcome) && SettledBy(s, s', ids, how, outcome)
    ensures s'.hist.asked == s.hist.asked && s'.hist.given == s.hist.given && s'.hist.revoked == s.hist.revoked
    ensures s'.hist.cards == s.hist.cards && s'.hist.decisions == s.hist.decisions && s'.step == s.step + 1
    ensures s'.hist.turns == s.hist.turns && s'.hist.crashes == s.hist.crashes
    ensures s'.hist.cleared == if act.EndSession? then s.hist.cleared + {(act.session, s.step)} else s.hist.cleared
    ensures s'.hist.settled == s.hist.settled + map id | id in ids :: Settlement(how, outcome, s.step, s.now)
  {
    hide Next;
    ClearedBySettling(s, act, ids, how, outcome);
  }

  lemma ClearedBySettling(s: State, act: Action, ids: set<CardId>, how: How, outcome: Outcome)
    requires Settler(s, act, ids, how, outcome)
    ensures Next(s, act).hist.cleared == if act.EndSession? then s.hist.cleared + {(act.session, s.step)} else s.hist.cleared
  {
    hide Click, TimerFires, DenyPending, ClearSession;
  }

  lemma SettlingLogged(s: State, s': State, acts: seq<Action>, act: Action, ids: set<CardId>, how: How, outcome: Outcome)
    requires Invariant(s) && s.step == |acts| + 1 && Settler(s, act, ids, how, outcome) && ids <= s.core.pending.Keys
    requires SettledLogged(s.hist, acts) && DecisionsLogged(s.hist, acts)
    requires s'.hist.cards == s.hist.cards && s'.hist.decisions == s.hist.decisions
    requires s'.hist.settled == s.hist.settled + map id | id in ids :: Settlement(how, outcome, s.step, s.now)
    ensures SettledLogged(s'.hist, acts + [act]) && DecisionsLogged(s'.hist, acts + [act])
  {
    hide Invariant, Settler;
    TookMore(acts, act);
    CardsKept(s.hist, s.hist, acts, act);
    PendingIsOnRecord(s);
    forall id | id in ids ensures Settling(act, id, how, s.hist.cards[id].ask.session) {
      SettlerActs(s, act, ids, how, outcome, id);
    }
    SettledGrows(s.hist, s'.hist, acts, act, s, ids, how, outcome);
  }

  lemma SettledGrows(h: History, h': History, acts: seq<Action>, act: Action, s: State, ids: set<CardId>, how: How, outcome: Outcome)
    requires SettledLogged(h, acts) && h'.cards == h.cards && s.step == |acts| + 1
    requires h'.settled == h.settled + map id | id in ids :: Settlement(how, outcome, s.step, s.now)
    requires forall id :: id in ids ==> id in h.cards && Settling(act, id, how, h.cards[id].ask.session)
    ensures SettledLogged(h', acts + [act])
  {
    hide Settling;
    var all := acts + [act];
    assert all[|acts|] == act && forall i :: 0 <= i < |acts| ==> all[i] == acts[i];
    forall id | id in h'.settled && id in h'.cards
      ensures 1 <= h'.settled[id].step <= |all| && Settling(all[h'.settled[id].step - 1], id, h'.settled[id].how, h'.cards[id].ask.session)
    {
      assert id in ids ==> h'.settled[id].step - 1 == |acts|;
    }
  }

  lemma SettlerActs(s: State, act: Action, ids: set<CardId>, how: How, outcome: Outcome, id: CardId)
    requires Settler(s, act, ids, how, outcome) && id in ids && ids <= s.core.pending.Keys
    ensures Settling(act, id, how, s.core.pending[id].ask.session)
  {
  }

  lemma PendingIsOnRecord(s: State)
    requires Invariant(s)
    ensures forall id :: id in s.core.pending ==> id in s.hist.cards && s.hist.cards[id].ask == s.core.pending[id].ask
  {
    hide CardIds, AskIds, Steps, Marks, Promises, Grants, Memory, Mutes, Columns, Verdicts, Answers, Events, Coalesced;
  }

  lemma LoggedByQuiet(s: State, acts: seq<Action>, act: Action)
    requires Invariant(s) && Logged(s, acts) && Quiet(s, act)
    ensures Logged(Next(s, act), acts + [act])
  {
    hide Next, Invariant, AsksLogged, GrantsLogged, SettledLogged, MarksLogged, DecisionsLogged, Quiet, QuietGrantsEffect, QuietColumnsEffect;
    var s' := Next(s, act);
    QuietEffects(s, act);
    QuietIsNoMark(s, act);
    AsksGrow(s.hist, s'.hist, acts, act);
    MarksKept(s.hist, s'.hist, acts, act);
    QuietGrantsLogged(s, s', acts, act);
    QuietDecisionsLogged(s, s', acts, act);
  }

  lemma QuietIsNoMark(s: State, act: Action)
    requires Quiet(s, act)
    ensures !act.EndSession? && !act.Crash? && !act.StartAsk?
  {
  }

  lemma QuietGrantsLogged(s: State, s': State, acts: seq<Action>, act: Action)
    requires Invariant(s) && Logged(s, acts) && QuietGrantsEffect(s, s', act)
    ensures GrantsLogged(s'.hist, acts + [act])
  {
    hide Invariant, AsksLogged, SettledLogged, MarksLogged, DecisionsLogged;
    TookMore(acts, act);
    match act
    case GiveGrant(x, t, args) =>
      GrantKeyMeans(x, t, args, GrantKey(x, t, args));
      GrantIdIsNew(s);
    case RevokeGrant(g) => RevokedInPast(s);
    case _ =>
  }

  lemma RevokedInPast(s: State)
    requires Invariant(s)
    ensures forall g :: g in s.hist.revoked ==> s.hist.revoked[g] <= s.step
  {
    hide CardIds, AskIds, Marks, Cards, Promises, Memory, Mutes, Columns, Verdicts, Answers, Events, Coalesced;
  }

  lemma GrantIdIsNew(s: State)
    requires Invariant(s)
    ensures GrantId(s.core.nextGrant, s.now) !in s.hist.given
  {
    hide AskIds, Steps, Marks, Cards, Promises, Memory, Mutes, Columns, Verdicts, Answers, Events, Coalesced;
  }

  lemma QuietDecisionsLogged(s: State, s': State, acts: seq<Action>, act: Action)
    requires Invariant(s) && Logged(s, acts) && QuietFrame(s, s') && QuietColumnsEffect(s, s', act)
    ensures SettledLogged(s'.hist, acts + [act]) && DecisionsLogged(s'.hist, acts + [act])
  {
    hide Invariant, AsksLogged, GrantsLogged, MarksLogged;
    TookMore(acts, act);
    CardsKept(s.hist, s.hist, acts, act);
    if act.OpClicks? && Awaits(s.core, act.op, act.id) {
      ColumnIsShadow(s, act.op);
      forall id | id in s'.hist.decisions && id in s'.hist.cards
        ensures exists t: nat :: RecordsAt(acts + [act], t, id, s'.hist.decisions[id].approved, s'.hist.cards[id].ask.op)
      {
        if id == act.id {
          assert RecordsAt(acts + [act], |acts| + 1, id, s'.hist.decisions[id].approved, s'.hist.cards[id].ask.op);
        } else {
          var t: nat :| RecordsAt(acts, t, id, s.hist.decisions[id].approved, s.hist.cards[id].ask.op);
          assert RecordsAt(acts + [act], t, id, s'.hist.decisions[id].approved, s'.hist.cards[id].ask.op);
        }
      }
    }
  }

  lemma LoggedStep(s: State, acts: seq<Action>, act: Action)
    requires Invariant(s) && Logged(s, acts)
    ensures Logged(Next(s, act), acts + [act])
  {
    hide Next, Invariant, Logged, Quiet;
    if act.StartAsk? && act.a !in s.hist.asked {
      LoggedByAsk(s, acts, act);
    } else if act.BridgeSettles? && Resumable(s, act.a) {
      LoggedByResume(s, acts, act);
    } else if act.StartAsk? || act.BridgeSettles? {
      Ignored(s, act);
      LoggedByIgnored(s, acts, act);
    } else if act.Crash? {
      LoggedByCrash(s, acts, act);
    } else if Quiet(s, act) {
      LoggedByQuiet(s, acts, act);
    } else {
      LoggedBySettling(s, acts, act);
    }
  }

  lemma LoggedByIgnored(s: State, acts: seq<Action>, act: Action)
    requires Logged(s, acts) && (act.StartAsk? || act.BridgeSettles?) && Next(s, act) == Next(s, Tick(0))
    ensures Logged(Next(s, act), acts + [act])
  {
    hide AsksLogged, GrantsLogged, SettledLogged, MarksLogged, DecisionsLogged;
    var s' := Next(s, act);
    assert s'.hist == s.hist && s'.step == s.step + 1 by { TickKeepsHistory(s); }
    hide Next;
    AsksGrow(s.hist, s'.hist, acts, act);
    CardsKept(s.hist, s'.hist, acts, act);
    MarksKept(s.hist, s'.hist, acts, act);
    GrantsKept(s.hist, s'.hist, acts, act);
  }

  lemma TickKeepsHistory(s: State)
    ensures Next(s, Tick(0)).hist == s.hist && Next(s, Tick(0)).step == s.step + 1
  {
  }

  /** Everything on record was done. */
  lemma {:induction false} EverythingIsLogged(now: int, acts: seq<Action>)
    ensures Logged(After(now, acts), acts)
    decreases |acts|
  {
    if acts == [] {
      assert Logged(Initial(now), []);
    } else {
      hide Next, Invariant, Logged, Run;
      var front, last := acts[..|acts| - 1], acts[|acts| - 1];
      assert acts == front + [last];
      EverythingIsLogged(now, front);
      Reachable(now, front);
      RunStep(Initial(now), front, last);
      LoggedStep(After(now, front), front, last);
    }
  }

  // ---- the sources of a yes, as acts ----

  /** No crash at a step strictly between. */
  predicate NoCrash(acts: seq<Action>, from: nat, until: nat) {
    forall t :: from < t < until ==> !CrashAt(acts, t)
  }

  /** At step t the user granted one run of this call, and did not take the grant back before step `until`. */
  ghost predicate GrantAct(h: History, acts: seq<Action>, ask: Ask, g: GrantId, t: nat, until: nat) {
    && 1 <= t < until && t <= |acts| && acts[t - 1].GiveGrant? && g in h.given && h.given[g].step == t
    && acts[t - 1].session == ask.session && acts[t - 1].tool == ask.tool && SameOwnArgs(acts[t - 1].args, ask.args)
    && NoCrash(acts, t, until) && (forall u :: t < u < until ==> !Took(acts, u, RevokeGrant(g)))
  }

  /** At step t "always allow" was clicked on a card of this session, tool and scope, and the session has not ended since. */
  ghost predicate AllowAct(h: History, acts: seq<Action>, ask: Ask, id: CardId, t: nat, until: nat) {
    && 1 <= t < until && t <= |acts| && Settling(acts[t - 1], id, Clicked(true, true), ask.session)
    && id in h.cards && !h.cards[id].ask.alwaysAsk && !ask.alwaysAsk
    && h.cards[id].ask.session == ask.session && h.cards[id].ask.tool == ask.tool && h.cards[id].ask.scope == ask.scope
    && NoCrash(acts, t, until) && (forall u :: t < u < until ==> !Took(acts, u, EndSession(ask.session)))
  }

  /** At step t Approve was clicked on the card, which is of the same session, tool and whole arguments. */
  ghost predicate ClickAct(h: History, acts: seq<Action>, ask: Ask, id: CardId, t: nat) {
    && 1 <= t <= |acts| && (exists remember :: Settling(acts[t - 1], id, Clicked(true, remember), ask.session))
    && id in h.cards && SameCall(h.cards[id].ask, ask)
  }

  /** At step t the op's own surface said yes to the dead card, of the same op, tool and start of the arguments' text. */
  ghost predicate RecordAct(h: History, acts: seq<Action>, ask: Ask, id: CardId, t: nat) {
    && RecordsAt(acts, t, id, true, ask.op)
    && id in h.cards && h.cards[id].ask.op == ask.op && h.cards[id].ask.tool == ask.tool
    && SameStart(h.cards[id].ask.text, ask.text)
  }

  ghost predicate YesAct(h: History, acts: seq<Action>, a: AskId, ask: Ask) {
    || (exists g, t :: a in h.answers && GrantAct(h, acts, ask, g, t, h.answers[a].step))
    || (exists id, t :: a in h.answers && AllowAct(h, acts, ask, id, t, h.answers[a].step))
    || (exists t :: a in h.riding && ClickAct(h, acts, ask, h.riding[a], t))
    || (exists id, t :: RecordAct(h, acts, ask, id, t))
  }

  lemma GrantActed(h: History, acts: seq<Action>, a: AskId, g: GrantId, at: nat)
    requires GrantsLogged(h, acts) && MarksLogged(h, acts) && GrantedFor(h, a, g, at)
    ensures GrantAct(h, acts, h.asked[a], g, h.given[g].step, at)
  {
    var t := h.given[g].step;
    forall u | t < u < at ensures !Took(acts, u, RevokeGrant(g)) {
    }
  }

  lemma AllowActed(h: History, acts: seq<Action>, ask: Ask, id: CardId, until: nat)
    requires SettledLogged(h, acts) && MarksLogged(h, acts) && AllowedFor(h, ask, id, until) && !ask.alwaysAsk
    ensures AllowAct(h, acts, ask, id, h.settled[id].step, until)
  {
  }

  lemma RecordActed(h: History, acts: seq<Action>, a: AskId, id: CardId, now: int)
    requires DecisionsLogged(h, acts) && VerdictFor(h, a, id, true, now)
    ensures exists t :: RecordAct(h, acts, h.asked[a], id, t)
  {
    var t: nat :| RecordsAt(acts, t, id, true, h.cards[id].ask.op);
    assert RecordAct(h, acts, h.asked[a], id, t);
  }

  lemma ClickActed(h: History, acts: seq<Action>, a: AskId)
    requires SettledLogged(h, acts) && YesByClick(h, a)
    ensures exists t :: ClickAct(h, acts, h.asked[a], h.riding[a], t)
  {
    var id := h.riding[a];
    var t := h.settled[id].step;
    assert Settling(acts[t - 1], id, Clicked(true, h.settled[id].how.remember), h.asked[a].session);
    assert ClickAct(h, acts, h.asked[a], id, t);
  }

  /**
   Every approved ask was started by an action of the run, and one of the user's acts in the run approved it: a one-shot
   grant of this call, "always allow" on its scope, Approve on a card of exactly this call, or a recorded yes to the dead
   card it repeats.
   */
  lemma NoApprovalWithoutAct(now: int, acts: seq<Action>, a: AskId)
    ensures var h := After(now, acts).hist;
            Told(h, a).Some? && Told(h, a).value.Approved? ==>
              a in h.asked && (exists t :: Took(acts, t, StartAsk(a, h.asked[a]))) && YesAct(h, acts, a, h.asked[a])
  {
    EverythingIsLogged(now, acts);
    NoApprovalWithoutYes(now, acts, a);
    Reachable(now, acts);
    OnRecord(After(now, acts), a);
    var h := After(now, acts).hist;
    hide Run, Invariant, GrantedFor, AllowedFor, VerdictFor, Justified, AsksLogged, GrantsLogged, SettledLogged, MarksLogged,
         DecisionsLogged, GrantAct, AllowAct, ClickAct, RecordAct;
    if YesByGrant(h, a) {
      GrantActed(h, acts, a, h.answers[a].outcome.grant.id, h.answers[a].step);
    } else if YesByMemory(h, a) {
      var id :| AllowedFor(h, h.asked[a], id, h.answers[a].step);
      AllowActed(h, acts, h.asked[a], id, h.answers[a].step);
    } else if YesByClick(h, a) {
      ClickActed(h, acts, a);
    } else if YesByRecord(h, a) {
      RecordActed(h, acts, a, h.answers[a].why.id, h.answers[a].at);
    }
    AskedInRun(h, acts, a);
  }

  lemma AskedInRun(h: History, acts: seq<Action>, a: AskId)
    requires AsksLogged(h, acts)
    ensures a in h.asked ==> exists t :: Took(acts, t, StartAsk(a, h.asked[a]))
  {
  }
}
