/**
 What every reachable state of the approval protocol keeps. Each predicate is one
 strand of the invariant; a strand is shown to survive each of the five shapes an
 action can have (ApprovalEffects), and InvariantKept assembles the strands.
 */
module ApprovalInvariants {
  import opened Wrappers
  import opened ApprovalModel
  import opened ApprovalProtocol
  import opened ApprovalEffects

  // ---- identities ----

  /** Minted before the current boot, or by a counter value this process has passed. */
  predicate Minted(id: CardId, now: int, bootAt: int, next: nat) {
    id.at <= now && (id.at < bootAt || id.n < next)
  }

  predicate GrantMinted(g: GrantId, now: int, bootAt: int, next: nat) {
    g.at <= now && (g.at < bootAt || g.n < next)
  }

  /** Card ids are never reused: not by a suspended ask, not across a crash. */
  ghost predicate CardIds(s: State) {
    && s.bootAt <= s.now
    && (forall id :: id in s.hist.cards ==> Minted(id, s.now, s.bootAt, s.core.nextCard))
    && (forall a :: a in s.suspended ==>
          Minted(s.suspended[a].id, s.now, s.bootAt, s.core.nextCard) && s.suspended[a].id !in s.hist.cards)
    && (forall a, b :: a in s.suspended && b in s.suspended && a != b ==> s.suspended[a].id != s.suspended[b].id)
  }

  lemma CardIdsAsk(s: State, s': State, a: AskId, ask: Ask, r: Step)
    requires CardIds(s) && AskEffect(s, s', a, ask, r)
    ensures CardIds(s')
  {
  }

  lemma CardIdsResume(s: State, s': State, a: AskId, loads: bool,
                      up: bool, at: int, answer: Answer)
    requires CardIds(s) && Resumable(s, a)
    requires ResumeOutline(s, s', a, s.suspended[a].ask, s.suspended[a].id, loads, up, at, answer)
    ensures CardIds(s')
  {
  }

  lemma CardIdsQuiet(s: State, s': State)
    requires CardIds(s) && (QuietFrame(s, s') || CrashEffect(s, s'))
    ensures CardIds(s')
  {
  }

  lemma CardIdsSettle(s: State, s': State, ids: set<CardId>, how: How, outcome: Outcome)
    requires CardIds(s) && SettledBy(s, s', ids, how, outcome)
    ensures CardIds(s')
  {
  }

  /** Every ask is suspended, waits on a card, or has been answered: never two of these. */
  ghost predicate AskIds(s: State) {
    && (forall a :: a in s.suspended ==>
          && s.suspended[a].ask.op.Some? && a in s.hist.asked && s.hist.asked[a] == s.suspended[a].ask
          && a !in s.hist.answers && a !in s.hist.riding)
    && (forall a :: a in s.hist.answers ==> a in s.hist.asked && a !in s.hist.riding)
    && (forall a :: a in s.hist.riding ==> a in s.hist.asked)
  }

  /** An ask ends up in exactly one place, and no other ask moves. */
  lemma AskLands(s: State, s': State, a: AskId, ask: Ask, r: Step)
    requires AskEffect(s, s', a, ask, r)
    ensures s'.hist.answers.Keys == s.hist.answers.Keys + if r.Returned? then {a} else {}
    ensures s'.hist.riding.Keys == s.hist.riding.Keys + if r.Rides? || r.Opens? then {a} else {}
    ensures s'.suspended == if r.Suspends? then s.suspended[a := Suspension(ask, r.id)] else s.suspended
    ensures r.Suspends? ==> ask.op.Some?
  {
    hide SameTakes, AskFrame;
  }

  lemma AskIdsAsk(s: State, s': State, a: AskId, ask: Ask, r: Step)
    requires AskIds(s) && a !in s.hist.asked && AskEffect(s, s', a, ask, r)
    ensures AskIds(s')
  {
    AskLands(s, s', a, ask, r);
    assert s'.hist.asked == s.hist.asked[a := ask];
    hide AskEffect;
  }

  lemma AskIdsResume(s: State, s': State, a: AskId, loads: bool,
                      up: bool, at: int, answer: Answer)
    requires AskIds(s) && Resumable(s, a)
    requires ResumeOutline(s, s', a, s.suspended[a].ask, s.suspended[a].id, loads, up, at, answer)
    ensures AskIds(s')
  {
  }

  lemma AskIdsQuiet(s: State, s': State)
    requires AskIds(s) && (QuietFrame(s, s') || CrashEffect(s, s'))
    ensures AskIds(s')
  {
  }

  lemma AskIdsSettle(s: State, s': State, ids: set<CardId>, how: How, outcome: Outcome)
    requires AskIds(s) && SettledBy(s, s', ids, how, outcome)
    ensures AskIds(s')
  {
  }

  // ---- time ----

  /** Everything in the history happened before the current step. */
  ghost predicate Steps(s: State) {
    && (forall a :: a in s.hist.answers ==> s.hist.answers[a].step < s.step && s.hist.answers[a].at <= s.now)
    && (forall id :: id in s.hist.cards ==> s.hist.cards[id].step < s.step && s.hist.cards[id].at <= s.now)
    && (forall id :: id in s.hist.settled ==> s.hist.settled[id].step < s.step && s.hist.settled[id].at <= s.now)
    && (forall g :: g in s.hist.given ==> s.hist.given[g].step < s.step)
    && (forall g :: g in s.hist.taken ==> s.hist.taken[g].step < s.step)
    && (forall g :: g in s.hist.revoked ==> s.hist.revoked[g] < s.step)
  }

  lemma StepsAsk(s: State, s': State, a: AskId, ask: Ask, r: Step)
    requires Steps(s) && AskEffect(s, s', a, ask, r)
    ensures Steps(s')
  {
  }

  lemma StepsResume(s: State, s': State, a: AskId, loads: bool,
                      up: bool, at: int, answer: Answer)
    requires Steps(s) && Resumable(s, a)
    requires ResumeOutline(s, s', a, s.suspended[a].ask, s.suspended[a].id, loads, up, at, answer)
    ensures Steps(s')
  {
  }

  lemma StepsQuiet(s: State, s': State, act: Action)
    requires Steps(s) && QuietEffect(s, s', act)
    ensures Steps(s')
  {
    hide QuietSlotsEffect, QuietColumnsEffect;
  }

  lemma StepsCrash(s: State, s': State)
    requires Steps(s) && CrashEffect(s, s')
    ensures Steps(s')
  {
  }

  lemma StepsSettle(s: State, s': State, ids: set<CardId>, how: How, outcome: Outcome)
    requires Steps(s) && SettledBy(s, s', ids, how, outcome)
    ensures Steps(s')
  {
  }

  // ---- cards ----

  predicate OutcomeFits(id: CardId, how: How, outcome: Outcome) {
    match how
    case Clicked(approved, _) => outcome == Outcomed(approved, id)
    case ByTimer => outcome == Denied(TimedOut)
    case ByReply => outcome == Denied(Superseded)
    case ByTeardown => outcome == Denied(TimedOut)
  }

  /** Every card is pending, settled, or lost with the process that showed it. */
  ghost predicate Cards(s: State) {
    && (forall id :: id in s.core.pending ==>
          && id in s.hist.cards && id !in s.hist.settled
          && s.core.pending[id] == Card(s.hist.cards[id].ask, Deadline(s.hist.cards[id].requestedAt, s.hist.cards[id].at)))
    && (forall id :: id in s.hist.settled ==> id in s.hist.cards && s.hist.cards[id].step < s.hist.settled[id].step)
    && (forall id :: id in s.hist.settled ==> OutcomeFits(id, s.hist.settled[id].how, s.hist.settled[id].outcome))
    && (forall id :: s.core.resolveCalls[id] == if id in s.hist.settled then 1 else 0)
    && (forall id :: id in s.hist.cards && id !in s.core.pending && id !in s.hist.settled ==>
          exists t :: t in s.hist.crashes && s.hist.cards[id].step < t)
  }

  lemma CardsUp(s: State, s': State, a: AskId, ask: Ask, id: CardId, at: int, shadowed: bool)
    requires Cards(s) && Steps(s) && id !in s.hist.cards && Opened(s, s', a, ask, id, at, shadowed)
    requires s'.hist.settled == s.hist.settled && s'.hist.crashes == s.hist.crashes
    requires s'.core.resolveCalls == s.core.resolveCalls
    ensures Cards(s')
  {
  }

  lemma CardsAsk(s: State, s': State, a: AskId, ask: Ask, r: Step)
    requires Cards(s) && CardIds(s) && Steps(s) && AskEffect(s, s', a, ask, r)
    ensures Cards(s')
  {
    if r.Opens? {
      assert !Minted(r.id, s.now, s.bootAt, s.core.nextCard);
      assert r.id !in s.hist.cards;
      hide CardIds, Cards, Opened, Steps;
      CardsUp(s, s', a, ask, r.id, r.requestedAt, false);
    } else {
      hide CardIds, Steps, SameTakes;
    }
  }

  lemma CardsResume(s: State, s': State, a: AskId, loads: bool,
                      up: bool, at: int, answer: Answer)
    requires Cards(s) && CardIds(s) && Steps(s) && Resumable(s, a)
    requires ResumeOutline(s, s', a, s.suspended[a].ask, s.suspended[a].id, loads, up, at, answer)
    ensures Cards(s')
  {
  }

  lemma CardsQuiet(s: State, s': State)
    requires Cards(s) && QuietFrame(s, s')
    ensures Cards(s')
  {
  }

  lemma CardsCrash(s: State, s': State)
    requires Cards(s) && Steps(s) && CrashEffect(s, s')
    ensures Cards(s')
  {
    forall id | id in s'.hist.cards && id !in s'.hist.settled
      ensures exists t :: t in s'.hist.crashes && s'.hist.cards[id].step < t
    {
      assert s.step in s'.hist.crashes;
    }
  }

  lemma CardsSettle(s: State, s': State, ids: set<CardId>, how: How, outcome: Outcome)
    requires Cards(s) && Steps(s) && SettledBy(s, s', ids, how, outcome)
    requires forall id :: id in ids ==> OutcomeFits(id, how, outcome)
    ensures Cards(s')
  {
  }

  /** Settled promises of this process are the settlements on record, awaiting their slot's release. */
  ghost predicate Slots(s: State) {
    && (forall id :: id in s.core.outcomes ==> id in s.hist.settled && s.hist.settled[id].outcome == s.core.outcomes[id])
    && (forall id :: id in s.core.releases ==>
          id in s.hist.cards && id !in s.core.pending && s.core.releases[id] == s.hist.cards[id].ask.Exact())
    && (forall k :: k in s.core.inflight ==>
          var id := s.core.inflight[k];
          && id in s.hist.cards && s.hist.cards[id].ask.Exact() == k
          && (id in s.core.pending || id in s.core.releases))
  }

  /** An ask only ever waits on a card put up for exactly the same call. */
  ghost predicate Riders(s: State) {
    forall a :: a in s.hist.riding ==>
      var id := s.hist.riding[a];
      id in s.hist.cards && a in s.hist.asked && s.hist.cards[id].ask.Exact() == s.hist.asked[a].Exact()
  }

  ghost predicate Promises(s: State) {
    Slots(s) && Riders(s)
  }

  lemma SlotsUp(s: State, s': State, a: AskId, ask: Ask, id: CardId, at: int, shadowed: bool)
    requires Slots(s) && Cards(s) && id !in s.hist.cards && Opened(s, s', a, ask, id, at, shadowed)
    requires s'.core.outcomes == s.core.outcomes && s'.core.releases == s.core.releases && s'.hist.settled == s.hist.settled
    ensures Slots(s')
  {
  }

  lemma SlotsAsk(s: State, s': State, a: AskId, ask: Ask, r: Step)
    requires Slots(s) && Cards(s) && CardIds(s) && AskEffect(s, s', a, ask, r)
    ensures Slots(s')
  {
    if r.Opens? {
      assert !Minted(r.id, s.now, s.bootAt, s.core.nextCard);
      assert r.id !in s.hist.cards;
      hide CardIds, Slots;
      SlotsUp(s, s', a, ask, r.id, r.requestedAt, false);
    } else {
      hide CardIds, Cards;
    }
  }

  lemma RidersAsk(s: State, s': State, a: AskId, ask: Ask, r: Step)
    requires Promises(s) && CardIds(s) && a !in s.hist.asked && AskEffect(s, s', a, ask, r)
    ensures Riders(s')
  {
    assert !Minted(CardId(s.core.nextCard, s.now), s.now, s.bootAt, s.core.nextCard);
    hide CardIds;
  }

  lemma PromisesResume(s: State, s': State, a: AskId, loads: bool,
                       up: bool, at: int, answer: Answer)
    requires Promises(s) && Cards(s) && CardIds(s) && AskIds(s) && Resumable(s, a)
    requires ResumeOutline(s, s', a, s.suspended[a].ask, s.suspended[a].id, loads, up, at, answer)
    ensures Promises(s')
  {
  }

  lemma PromisesQuiet(s: State, s': State, act: Action)
    requires Promises(s) && QuietEffect(s, s', act)
    ensures Promises(s')
  {
    hide QuietGrantsEffect, QuietColumnsEffect;
  }

  lemma PromisesCrash(s: State, s': State)
    requires Promises(s) && CrashEffect(s, s')
    ensures Promises(s')
  {
  }

  lemma PromisesSettle(s: State, s': State, ids: set<CardId>, how: How, outcome: Outcome)
    requires Promises(s) && Cards(s) && SettledBy(s, s', ids, how, outcome)
    ensures Promises(s')
  {
  }

  // ---- one-shot grants ----

  /** No crash of the process between two steps. */
  ghost predicate SameProcess(h: History, from: nat, until: nat) {
    forall t :: t in h.crashes ==> !(from < t < until)
  }

  /** A held grant is the user's, unconsumed, unrevoked and given in this very process. */
  ghost predicate Grants(s: State) {
    && (forall k :: k in s.core.grants ==>
          var g := s.core.grants[k];
          && g in s.hist.given && s.hist.given[g].key == k && g !in s.hist.taken && g !in s.hist.revoked
          && SameProcess(s.hist, s.hist.given[g].step, s.step))
    && (forall g :: s.hist.takeCalls[g] == if g in s.hist.taken then 1 else 0)
    && (forall g :: g in s.hist.taken ==> g in s.hist.given && s.hist.taken[g].ask in s.hist.answers)
    && (forall g :: g in s.hist.revoked ==> g in s.hist.given)
    && (forall g :: g in s.hist.given ==> GrantMinted(g, s.now, s.bootAt, s.core.nextGrant))
    && (forall t :: t in s.hist.crashes ==> t < s.step)
    && s.bootAt <= s.now
  }

  lemma GrantsAsk(s: State, s': State, a: AskId, ask: Ask, r: Step)
    requires Grants(s) && AskEffect(s, s', a, ask, r)
    ensures Grants(s')
  {
  }

  lemma GrantsResume(s: State, s': State, a: AskId, loads: bool,
                     up: bool, at: int, answer: Answer)
    requires Grants(s) && Resumable(s, a)
    requires ResumeOutline(s, s', a, s.suspended[a].ask, s.suspended[a].id, loads, up, at, answer)
    ensures Grants(s')
  {
  }

  lemma GrantsGive(s: State, s': State, act: Action)
    requires Grants(s) && act.GiveGrant? && QuietFrame(s, s') && QuietGrantsEffect(s, s', act)
    ensures Grants(s')
  {
    assert !GrantMinted(GrantId(s.core.nextGrant, s.now), s.now, s.bootAt, s.core.nextGrant);
  }

  lemma GrantsRevoke(s: State, s': State, act: Action)
    requires Grants(s) && act.RevokeGrant? && QuietFrame(s, s') && QuietGrantsEffect(s, s', act)
    ensures Grants(s')
  {
  }

  lemma GrantsQuiet(s: State, s': State, act: Action)
    requires Grants(s) && QuietEffect(s, s', act)
    ensures Grants(s')
  {
    hide QuietSlotsEffect, QuietColumnsEffect;
    if act.GiveGrant? {
      hide Grants;
      GrantsGive(s, s', act);
    } else if act.RevokeGrant? {
      hide Grants;
      GrantsRevoke(s, s', act);
    }
  }

  lemma GrantsCrash(s: State, s': State)
    requires Grants(s) && CrashEffect(s, s')
    ensures Grants(s')
  {
  }

  lemma GrantsSettle(s: State, s': State, ids: set<CardId>, how: How, outcome: Outcome)
    requires Grants(s) && SettledBy(s, s', ids, how, outcome)
    ensures Grants(s')
  {
  }

  // ---- remembered approvals and suppressions ----

  /** Neither a crash nor a teardown of session x lies strictly between two steps. */
  ghost predicate Unbroken(h: History, x: string, from: nat, until: nat) {
    SameProcess(h, from, until) && forall t :: (x, t) in h.cleared ==> !(from < t < until)
  }

  /** Card id was answered "always allow" for this session and scope, and that still stood at `until`. */
  ghost predicate AllowedBy(h: History, x: string, c: CacheKey, id: CardId, until: nat) {
    && id in h.cards && id in h.settled && h.settled[id].how == Clicked(true, true)
    && Remembering(h.cards[id].ask, x, c)
    && h.settled[id].step < until && Unbroken(h, x, h.settled[id].step, until)
  }

  /** Card id of exactly this call was denied, or ran out, and that still stood at `until`. */
  ghost predicate SilencedBy(h: History, k: ExactKey, v: Suppression, id: CardId, until: nat) {
    && id in h.cards && id in h.settled && h.cards[id].ask.Exact() == k
    && MutesAs(h.settled[id].how, v.reason) && h.settled[id].at == v.ts
    && h.settled[id].step < until && Unbroken(h, k.session, h.settled[id].step, until)
    && forall t :: (k.session, t) in h.turns ==> !(h.settled[id].step < t < until)
  }

  /** Later steps of the history cannot undo what stood at `until`. */
  ghost predicate Later(h: History, h': History, step: nat) {
    && (forall id :: id in h.cards ==> id in h'.cards && h'.cards[id] == h.cards[id])
    && (forall id :: id in h.settled ==> id in h'.settled && h'.settled[id] == h.settled[id])
    && (forall t :: t in h'.crashes ==> t in h.crashes || t >= step)
    && (forall x, t :: (x, t) in h'.cleared ==> (x, t) in h.cleared || t >= step)
    && (forall x, t :: (x, t) in h'.turns ==> (x, t) in h.turns || t >= step)
  }

  lemma AllowedStays(h: History, h': History, x: string, c: CacheKey, id: CardId, until: nat, step: nat)
    requires AllowedBy(h, x, c, id, until) && Later(h, h', step) && until <= step
    ensures AllowedBy(h', x, c, id, until)
  {
  }

  lemma SilencedStays(h: History, h': History, k: ExactKey, v: Suppression, id: CardId, until: nat, step: nat)
    requires SilencedBy(h, k, v, id, until) && Later(h, h', step) && until <= step
    ensures SilencedBy(h', k, v, id, until)
  {
  }

  ghost predicate Memory(s: State) {
    forall x, c :: x in s.core.auto && c in s.core.auto[x] ==> exists id :: AllowedBy(s.hist, x, c, id, s.step)
  }

  ghost predicate Mutes(s: State) {
    forall k :: k in s.core.suppressed ==> exists id :: SilencedBy(s.hist, k, s.core.suppressed[k], id, s.step)
  }

  /** Crashes, teardowns, turns and closed columns on record all lie in the past. */
  ghost predicate Marks(s: State) {
    && (forall t :: t in s.hist.crashes ==> t < s.step)
    && (forall x, t :: (x, t) in s.hist.cleared ==> t < s.step)
    && (forall x, t :: (x, t) in s.hist.turns ==> t < s.step)
    && (forall x, t :: (x, t) in s.hist.closes ==> t < s.step)
  }

  lemma MarksAsk(s: State, s': State, a: AskId, ask: Ask, r: Step)
    requires Marks(s) && AskFrame(s, s', a, ask)
    ensures Marks(s')
  {
  }

  lemma MarksResume(s: State, s': State, a: AskId, loads: bool)
    requires Marks(s) && Resumable(s, a)
    requires ResumeEffect(s, s', a, s.suspended[a].ask, s.suspended[a].id, loads)
    ensures Marks(s')
  {
    hide Find, Opened;
  }

  lemma MarksQuiet(s: State, s': State, act: Action)
    requires Marks(s) && QuietEffect(s, s', act)
    ensures Marks(s')
  {
    hide QuietGrantsEffect;
  }

  lemma MarksCrash(s: State, s': State)
    requires Marks(s) && CrashEffect(s, s')
    ensures Marks(s')
  {
  }

  lemma MarksSettle(s: State, s': State, ids: set<CardId>, how: How, outcome: Outcome)
    requires Marks(s) && SettledBy(s, s', ids, how, outcome) && s'.hist.turns == s.hist.turns
    ensures Marks(s')
  {
  }

  /** The next step has no crash in it, and its teardowns and turns do not concern session x. */
  ghost predicate Calm(s: State, s': State, x: string) {
    && s'.step == s.step + 1 && Later(s.hist, s'.hist, s.step) && s'.hist.crashes == s.hist.crashes
    && ((x, s.step) in s'.hist.cleared ==> (x, s.step) in s.hist.cleared)
  }

  lemma MemoryKept(s: State, s': State)
    requires Memory(s) && Marks(s)
    requires forall x, c :: x in s'.core.auto && c in s'.core.auto[x] ==>
               x in s.core.auto && c in s.core.auto[x] && Calm(s, s', x)
    ensures Memory(s')
  {
    forall x, c | x in s'.core.auto && c in s'.core.auto[x]
      ensures exists id :: AllowedBy(s'.hist, x, c, id, s'.step)
    {
      var id :| AllowedBy(s.hist, x, c, id, s.step);
      assert AllowedBy(s'.hist, x, c, id, s'.step);
    }
  }

  lemma MutesKept(s: State, s': State)
    requires Mutes(s) && Marks(s)
    requires forall k :: k in s'.core.suppressed ==>
               && k in s.core.suppressed && s'.core.suppressed[k] == s.core.suppressed[k] && Calm(s, s', k.session)
               && ((k.session, s.step) in s'.hist.turns ==> (k.session, s.step) in s.hist.turns)
    ensures Mutes(s')
  {
    hide SilencedBy, Calm, Marks;
    forall k | k in s'.core.suppressed
      ensures exists id :: SilencedBy(s'.hist, k, s'.core.suppressed[k], id, s'.step)
    {
      var id :| SilencedBy(s.hist, k, s.core.suppressed[k], id, s.step);
      SilencedCarries(s, s', k, s.core.suppressed[k], id);
      assert SilencedBy(s'.hist, k, s'.core.suppressed[k], id, s'.step);
    }
  }

  lemma SilencedCarries(s: State, s': State, k: ExactKey, v: Suppression, id: CardId)
    requires SilencedBy(s.hist, k, v, id, s.step) && Marks(s) && Calm(s, s', k.session)
    requires (k.session, s.step) in s'.hist.turns ==> (k.session, s.step) in s.hist.turns
    ensures SilencedBy(s'.hist, k, v, id, s'.step)
  {
  }

  lemma SettlingIsCalm(s: State, s': State, ids: set<CardId>, how: How, outcome: Outcome, x: string)
    requires Cards(s) && SettledBy(s, s', ids, how, outcome) && s'.hist.turns == s.hist.turns
    requires (x, s.step) in s'.hist.cleared ==> (x, s.step) in s.hist.cleared
    ensures Calm(s, s', x)
  {
  }

  lemma MuteOne(s: State, s': State, ids: set<CardId>, how: How, outcome: Outcome, k: ExactKey)
    requires Mutes(s) && Marks(s) && Cards(s) && k in s'.core.suppressed && ids <= s.core.pending.Keys
    requires SettledBy(s, s', ids, how, outcome) && MuteEffect(s, s', ids, how) && s'.hist.turns == s.hist.turns
    ensures exists id :: SilencedBy(s'.hist, k, s'.core.suppressed[k], id, s'.step)
  {
    hide Cards, Marks, SettledBy, SilencedBy, Calm;
    if k in s.core.suppressed && s'.core.suppressed[k] == s.core.suppressed[k]
       && ((k.session, s.step) in s'.hist.cleared ==> (k.session, s.step) in s.hist.cleared) {
      var id :| SilencedBy(s.hist, k, s.core.suppressed[k], id, s.step);
      SettlingIsCalm(s, s', ids, how, outcome, k.session);
      SilencedCarries(s, s', k, s'.core.suppressed[k], id);
    } else {
      var id :| id in ids && s.core.pending[id].ask.Exact() == k;
      SilencedNow(s, s', ids, how, outcome, id, s'.core.suppressed[k]);
    }
  }

  lemma MutesSettle(s: State, s': State, ids: set<CardId>, how: How, outcome: Outcome)
    requires Mutes(s) && Marks(s) && Cards(s) && ids <= s.core.pending.Keys
    requires SettledBy(s, s', ids, how, outcome) && MuteEffect(s, s', ids, how) && s'.hist.turns == s.hist.turns
    ensures Mutes(s')
  {
    hide MuteEffect, Marks, Cards, SilencedBy, SettledBy;
    forall k | k in s'.core.suppressed
      ensures exists id :: SilencedBy(s'.hist, k, s'.core.suppressed[k], id, s'.step)
    {
      MuteOne(s, s', ids, how, outcome, k);
    }
  }

  lemma AllowedCarries(s: State, s': State, x: string, c: CacheKey, id: CardId)
    requires AllowedBy(s.hist, x, c, id, s.step) && Marks(s) && Calm(s, s', x)
    ensures AllowedBy(s'.hist, x, c, id, s'.step)
  {
  }

  lemma AllowedNow(s: State, s': State, ids: set<CardId>, outcome: Outcome, x: string, c: CacheKey, id: CardId)
    requires Marks(s) && Cards(s) && SettledBy(s, s', ids, Clicked(true, true), outcome)
    requires id in ids && Remembering(s.core.pending[id].ask, x, c)
    ensures AllowedBy(s'.hist, x, c, id, s'.step)
  {
    assert s'.hist.settled[id] == Settlement(Clicked(true, true), outcome, s.step, s.now);
  }

  lemma MemorySettle(s: State, s': State, ids: set<CardId>, how: How, outcome: Outcome)
    requires Memory(s) && Marks(s) && Cards(s) && ids <= s.core.pending.Keys
    requires SettledBy(s, s', ids, how, outcome) && MemoryEffect(s, s', ids, how)
    ensures Memory(s')
  {
    hide Cards, Marks, SettledBy, AllowedBy, Calm;
    forall x, c | x in s'.core.auto && c in s'.core.auto[x]
      ensures exists id :: AllowedBy(s'.hist, x, c, id, s'.step)
    {
      if x in s.core.auto && c in s.core.auto[x] {
        var id :| AllowedBy(s.hist, x, c, id, s.step);
        SettlingIsCalm(s, s', ids, how, outcome, x);
        AllowedCarries(s, s', x, c, id);
      } else {
        var id :| id in ids && Remembering(s.core.pending[id].ask, x, c);
        AllowedNow(s, s', ids, outcome, x, c, id);
      }
    }
  }

  lemma SilencedNow(s: State, s': State, ids: set<CardId>, how: How, outcome: Outcome, id: CardId, v: Suppression)
    requires Marks(s) && Cards(s) && SettledBy(s, s', ids, how, outcome) && s'.hist.turns == s.hist.turns
    requires s'.hist.cleared == s.hist.cleared && id in ids && MutesAs(how, v.reason) && v.ts == s.now
    ensures SilencedBy(s'.hist, s.core.pending[id].ask.Exact(), v, id, s'.step)
  {
    assert s'.hist.settled[id] == Settlement(how, outcome, s.step, s.now);
  }

  // ---- the durable columns ----

  /** A column is the shadow of an unsettled card of its own op; a verdict on it is the one on record. */
  ghost predicate ColumnFits(h: History, op: string, r: Record) {
    && r.id in h.cards && r.id !in h.settled
    && h.cards[r.id].shadowed && h.cards[r.id].ask.op == Some(op)
    && SameAsk(r, h.cards[r.id].ask.tool, h.cards[r.id].ask.Preview())
    && r.requestedAt == h.cards[r.id].requestedAt
    && h.applied[r.id] == 0
    && (r.decision.Some? <==> r.id in h.decisions)
    && (r.decision.Some? ==> h.decisions[r.id] == r.decision.value)
  }

  ghost predicate Columns(s: State) {
    forall op :: op in s.core.columns ==> ColumnFits(s.hist, op, s.core.columns[op])
  }

  /** Decisions are recorded for dead cards only, and each is applied at most once. */
  ghost predicate Verdicts(s: State) {
    && (forall id :: id in s.core.pending && id in s.hist.cards && s.hist.cards[id].shadowed ==> s.core.bridge)
    && (forall id :: id in s.hist.decisions ==>
          id in s.hist.cards && id !in s.core.pending && id !in s.hist.settled && s.hist.decisions[id].at <= s.now)
    && (forall id :: s.hist.applied[id] <= 1 && (s.hist.applied[id] == 1 ==> id in s.hist.decisions))
  }

  /** Nothing that happened to this record's card between two histories matters to it. */
  ghost predicate Untouched(h: History, h': History, id: CardId) {
    && id in h.cards && id in h'.cards && h'.cards[id] == h.cards[id]
    && (id in h'.settled ==> id in h.settled)
    && h'.applied[id] == h.applied[id]
    && (id in h'.decisions <==> id in h.decisions) && (id in h.decisions ==> h'.decisions[id] == h.decisions[id])
  }

  lemma FitsStill(h: History, h': History, op: string, r: Record)
    requires ColumnFits(h, op, r) && Untouched(h, h', r.id)
    ensures ColumnFits(h', op, r)
  {
  }

  lemma ColumnsStay(s: State, s': State)
    requires Columns(s)
    requires forall op :: op in s'.core.columns ==>
               op in s.core.columns && s'.core.columns[op] == s.core.columns[op] && Untouched(s.hist, s'.hist, s.core.columns[op].id)
    ensures Columns(s')
  {
    forall op | op in s'.core.columns
      ensures ColumnFits(s'.hist, op, s'.core.columns[op])
    {
      FitsStill(s.hist, s'.hist, op, s.core.columns[op]);
    }
  }

  /** An ask adds at most one card, a fresh one without a durable shadow. */
  lemma AskGrows(s: State, s': State, a: AskId, ask: Ask, r: Step)
    requires CardIds(s) && AskEffect(s, s', a, ask, r)
    ensures forall id :: id in s.hist.cards ==> id in s'.hist.cards && s'.hist.cards[id] == s.hist.cards[id]
    ensures forall id :: id in s'.core.pending ==>
              id in s.core.pending || (id in s'.hist.cards && id !in s.hist.cards && !s'.hist.cards[id].shadowed)
  {
    if r.Opens? {
      assert !Minted(r.id, s.now, s.bootAt, s.core.nextCard);
    }
  }

  lemma ColumnsAsk(s: State, s': State, a: AskId, ask: Ask, r: Step)
    requires Columns(s) && Verdicts(s) && Cards(s) && CardIds(s) && AskEffect(s, s', a, ask, r)
    ensures Columns(s') && Verdicts(s')
  {
    AskGrows(s, s', a, ask, r);
    assert AskFrame(s, s', a, ask);
    hide AskEffect, CardIds, Columns;
    VerdictsGrow(s, s', a, ask);
    hide Cards, Verdicts;
    ColumnsGrow(s, s', a, ask);
  }

  lemma ColumnsGrow(s: State, s': State, a: AskId, ask: Ask)
    requires Columns(s) && AskFrame(s, s', a, ask)
    requires forall id :: id in s.hist.cards ==> id in s'.hist.cards && s'.hist.cards[id] == s.hist.cards[id]
    ensures Columns(s')
  {
    forall op | op in s.core.columns
      ensures Untouched(s.hist, s'.hist, s.core.columns[op].id)
    {
      assert ColumnFits(s.hist, op, s.core.columns[op]);
    }
    ColumnsStay(s, s');
  }

  lemma VerdictsGrow(s: State, s': State, a: AskId, ask: Ask)
    requires Verdicts(s) && AskFrame(s, s', a, ask) && Cards(s)
    requires forall id :: id in s.hist.cards ==> id in s'.hist.cards && s'.hist.cards[id] == s.hist.cards[id]
    requires forall id :: id in s'.core.pending ==>
               id in s.core.pending || (id in s'.hist.cards && id !in s.hist.cards && !s'.hist.cards[id].shadowed)
    ensures Verdicts(s')
  {
  }

  lemma ColumnsUp(s: State, s': State, a: AskId, ask: Ask, id: CardId, loads: bool, at: int)
    requires Columns(s) && Verdicts(s) && ask.op.Some? && id !in s.hist.cards && id !in s.hist.settled
    requires ResumeFrame(s, s', a, loads) && ResumeOpens(s, s', a, ask, id, at)
    ensures Columns(s')
  {
    forall op | op in s'.core.columns
      ensures ColumnFits(s'.hist, op, s'.core.columns[op])
    {
      if s'.core.columns[op].id != id {
        FitsStill(s.hist, s'.hist, op, s.core.columns[op]);
      }
    }
  }

  lemma VerdictsUp(s: State, s': State, a: AskId, ask: Ask, id: CardId, loads: bool, at: int)
    requires Verdicts(s) && ask.op.Some? && id !in s.hist.cards
    requires ResumeFrame(s, s', a, loads) && ResumeOpens(s, s', a, ask, id, at)
    ensures Verdicts(s')
  {
  }

  lemma ColumnsVerdict(s: State, s': State, a: AskId, ask: Ask, loads: bool, r: Record)
    requires Columns(s) && Verdicts(s) && ask.op.Some? && ask.op.value in s.core.columns && r == s.core.columns[ask.op.value]
    requires ResumeFrame(s, s', a, loads) && SameCards(s, s') && r.decision.Some?
    requires s'.hist.applied == s.hist.applied + multiset{r.id} && s'.core.columns == s.core.columns - {ask.op.value}
    ensures Columns(s') && Verdicts(s')
  {
    assert ColumnFits(s.hist, ask.op.value, r);
    forall op | op in s'.core.columns
      ensures ColumnFits(s'.hist, op, s'.core.columns[op])
    {
      assert ColumnFits(s.hist, op, s.core.columns[op]);
      FitsStill(s.hist, s'.hist, op, s.core.columns[op]);
    }
  }

  lemma ColumnsResume(s: State, s': State, a: AskId, loads: bool)
    requires Columns(s) && Verdicts(s) && Cards(s) && CardIds(s) && Resumable(s, a)
    requires ResumeEffect(s, s', a, s.suspended[a].ask, s.suspended[a].id, loads)
    ensures Columns(s') && Verdicts(s')
  {
    var ask, id := s.suspended[a].ask, s.suspended[a].id;
    assert id !in s.hist.cards && id !in s.hist.settled;
    hide Columns, Verdicts, Cards, ResumeFrame, ResumeOpens, SameCards;
    match Find(s.core, ask, loads, s.now)
    case Verdict(r) =>
      ColumnsVerdict(s, s', a, ask, loads, r);
    case Window(r) =>
      ColumnsUp(s, s', a, ask, id, loads, r.requestedAt);
      VerdictsUp(s, s', a, ask, id, loads, r.requestedAt);
    case Stale(_) =>
      ColumnsUp(s, s', a, ask, id, loads, s.now);
      VerdictsUp(s, s', a, ask, id, loads, s.now);
    case Nothing =>
      ColumnsUp(s, s', a, ask, id, loads, s.now);
      VerdictsUp(s, s', a, ask, id, loads, s.now);
  }

  lemma ColumnsDecided(s: State, s': State, act: Action)
    requires Columns(s) && Verdicts(s) && Quiet(s, act) && act.OpClicks? && Awaits(s.core, act.op, act.id)
    requires QuietFrame(s, s') && QuietColumnsEffect(s, s', act)
    ensures Columns(s') && Verdicts(s')
  {
    assert ColumnFits(s.hist, act.op, s.core.columns[act.op]);
    forall op | op in s'.core.columns
      ensures ColumnFits(s'.hist, op, s'.core.columns[op])
    {
      assert ColumnFits(s.hist, op, s.core.columns[op]);
      if op != act.op {
        FitsStill(s.hist, s'.hist, op, s.core.columns[op]);
      }
    }
  }

  lemma ColumnsQuiet(s: State, s': State, act: Action)
    requires Columns(s) && Verdicts(s) && Quiet(s, act) && QuietEffect(s, s', act)
    ensures Columns(s') && Verdicts(s')
  {
    hide QuietGrantsEffect, QuietSlotsEffect;
    if act.OpClicks? && Awaits(s.core, act.op, act.id) {
      hide Columns, Verdicts, QuietFrame, QuietColumnsEffect;
      ColumnsDecided(s, s', act);
    } else {
      ColumnsStay(s, s');
    }
  }

  lemma ColumnsCrash(s: State, s': State)
    requires Columns(s) && Verdicts(s) && CrashEffect(s, s')
    ensures Columns(s') && Verdicts(s')
  {
    ColumnsStay(s, s');
  }

  lemma VerdictsSettle(s: State, s': State, ids: set<CardId>, how: How, outcome: Outcome)
    requires Verdicts(s) && SettledBy(s, s', ids, how, outcome)
    ensures Verdicts(s')
  {
  }

  lemma ColumnsSettle(s: State, s': State, ids: set<CardId>, how: How, outcome: Outcome)
    requires Columns(s) && Verdicts(s) && Cards(s) && SettledBy(s, s', ids, how, outcome)
    ensures Columns(s')
  {
    forall op | op in s'.core.columns
      ensures op in s.core.columns && s'.core.columns[op] == s.core.columns[op]
      ensures Untouched(s.hist, s'.hist, s.core.columns[op].id)
    {
      assert ColumnFits(s.hist, op, s.core.columns[op]);
      assert s.core.columns[op].id !in ids;
    }
    hide SettledBy, Cards, Verdicts;
    ColumnsStay(s, s');
  }

  // ---- why every immediate answer was given ----

  /** The one-shot grant g was the user's yes to exactly this call, unrevoked, and this ask alone consumed it. */
  ghost predicate GrantUsed(h: History, a: AskId, g: GrantId, at: nat) {
    && a in h.asked && g in h.given && g in h.taken && h.taken[g] == Taken(a, at) && h.takeCalls[g] == 1
    && h.given[g].key == h.asked[a].Granted() && h.given[g].step < at
    && (g in h.revoked ==> at <= h.revoked[g])
    && SameProcess(h, h.given[g].step, at)
  }

  /** The verdict recorded for card id was applied to this re-ask of it, once and inside its window. */
  ghost predicate VerdictApplied(h: History, a: AskId, id: CardId, approved: bool, now: int) {
    && a in h.asked && id in h.cards && id in h.decisions && h.applied[id] == 1 && id in h.consumer && h.consumer[id] == a
    && h.decisions[id].approved == approved && h.decisions[id].at <= now
    && h.asked[a].op.Some? && h.cards[id].ask.op == h.asked[a].op
    && h.cards[id].ask.tool == h.asked[a].tool && h.cards[id].ask.Preview() == h.asked[a].Preview()
    && now - h.cards[id].requestedAt < APPROVAL_TIMEOUT_MS
  }

  ghost predicate Justified(h: History, a: AskId, w: Answer) {
    && a in h.asked
    && match w.why
       case ByGrant => w.outcome.Approved? && w.outcome.grant.OneShot? && GrantUsed(h, a, w.outcome.grant.id, w.step)
       case ByMemory =>
         && w.outcome == Approved(NoGrant) && !h.asked[a].alwaysAsk
         && exists id :: AllowedBy(h, h.asked[a].session, h.asked[a].Cache(), id, w.step)
       case BySuppression =>
         && w.outcome.Denied?
         && exists id, ts :: SilencedBy(h, h.asked[a].Exact(), Suppression(ts, w.outcome.reason), id, w.step)
                             && w.at - ts < DECLINE_SUPPRESS_MS
       case ByRecord(id) =>
         exists yes :: VerdictApplied(h, a, id, yes, w.at) && w.outcome == if yes then Approved(NoGrant) else Denied(Declined)
  }

  ghost predicate Answers(s: State) {
    forall a :: a in s.hist.answers ==> Justified(s.hist, a, s.hist.answers[a])
  }

  /** A longer history that only adds what happened at `step` or after. */
  ghost predicate Extends(h: History, h': History, step: nat) {
    && Later(h, h', step)
    && (forall a :: a in h.asked ==> a in h'.asked && h'.asked[a] == h.asked[a])
    && (forall g :: g in h.given ==> g in h'.given && h'.given[g] == h.given[g])
    && (forall g :: g in h.taken ==> g in h'.taken && h'.taken[g] == h.taken[g] && h'.takeCalls[g] == h.takeCalls[g])
    && (forall g :: g in h.given && g in h'.revoked ==> (g in h.revoked && h'.revoked[g] == h.revoked[g]) || step <= h'.revoked[g])
    && (forall id :: h.applied[id] == 1 ==>
          && h'.applied[id] == 1 && (id in h.consumer ==> id in h'.consumer && h'.consumer[id] == h.consumer[id])
          && (id in h.decisions ==> id in h'.decisions && h'.decisions[id] == h.decisions[id]))
  }

  lemma JustifiedStays(h: History, h': History, a: AskId, w: Answer, step: nat)
    requires Justified(h, a, w) && Extends(h, h', step) && w.step <= step
    ensures Justified(h', a, w)
  {
    match w.why
    case ByGrant =>
    case ByMemory =>
      hide Extends;
      assert Later(h, h', step) && h'.asked[a] == h.asked[a] by { ExtendsBasics(h, h', a, step); }
      var id :| AllowedBy(h, h.asked[a].session, h.asked[a].Cache(), id, w.step);
      AllowedStays(h, h', h.asked[a].session, h.asked[a].Cache(), id, w.step, step);
      ExtendsBasics(h, h', a, step);
    case BySuppression =>
      hide Extends;
      ExtendsBasics(h, h', a, step);
      var id, ts :| SilencedBy(h, h.asked[a].Exact(), Suppression(ts, w.outcome.reason), id, w.step)
                    && w.at - ts < DECLINE_SUPPRESS_MS;
      SilencedStays(h, h', h.asked[a].Exact(), Suppression(ts, w.outcome.reason), id, w.step, step);
    case ByRecord(id) =>
      var yes :| VerdictApplied(h, a, id, yes, w.at) && w.outcome == if yes then Approved(NoGrant) else Denied(Declined);
      assert VerdictApplied(h', a, id, yes, w.at);
  }

  lemma ExtendsBasics(h: History, h': History, a: AskId, step: nat)
    requires Extends(h, h', step) && a in h.asked
    ensures Later(h, h', step) && a in h'.asked && h'.asked[a] == h.asked[a]
  {
  }

  /** If no ask is answered by a step, the answers on record keep their reasons. */
  lemma AnswersStay(s: State, s': State)
    requires Answers(s) && Steps(s) && Extends(s.hist, s'.hist, s.step) && s'.hist.answers == s.hist.answers
    ensures Answers(s')
  {
    hide Justified, Extends;
    forall a | a in s'.hist.answers
      ensures Justified(s'.hist, a, s'.hist.answers[a])
    {
      JustifiedStays(s.hist, s'.hist, a, s.hist.answers[a], s.step);
    }
  }

  lemma AnswersGrow(s: State, s': State, a: AskId, w: Answer)
    requires Answers(s) && Steps(s) && Extends(s.hist, s'.hist, s.step) && s'.hist.answers == s.hist.answers[a := w]
    requires Justified(s'.hist, a, w)
    ensures Answers(s')
  {
    hide Justified, Extends;
    forall b | b in s'.hist.answers
      ensures Justified(s'.hist, b, s'.hist.answers[b])
    {
      if b != a {
        JustifiedStays(s.hist, s'.hist, b, s.hist.answers[b], s.step);
      }
    }
  }

  lemma TakesAsk(s: State, s': State, a: AskId, ask: Ask, r: Step)
    requires Grants(s) && AskEffect(s, s', a, ask, r)
    ensures forall g :: g in s.hist.taken ==>
              g in s'.hist.taken && s'.hist.taken[g] == s.hist.taken[g] && s'.hist.takeCalls[g] == s.hist.takeCalls[g]
  {
    hide AskFrame, SameCards;
  }

  lemma ExtendsAsk(s: State, s': State, a: AskId, ask: Ask, r: Step)
    requires CardIds(s) && Grants(s) && a !in s.hist.asked && AskEffect(s, s', a, ask, r)
    ensures Extends(s.hist, s'.hist, s.step)
  {
    hide AskEffect, CardIds, Grants;
    AskGrows(s, s', a, ask, r);
    TakesAsk(s, s', a, ask, r);
    AskFramed(s, s', a, ask, r);
  }

  lemma AskFramed(s: State, s': State, a: AskId, ask: Ask, r: Step)
    requires AskEffect(s, s', a, ask, r)
    ensures AskFrame(s, s', a, ask)
  {
    hide AskFrame;
  }

  lemma ExtendsUp(s: State, s': State, a: AskId, ask: Ask, id: CardId, loads: bool, at: int)
    requires ask.op.Some? && id !in s.hist.cards && ResumeFrame(s, s', a, loads) && ResumeOpens(s, s', a, ask, id, at)
    ensures Extends(s.hist, s'.hist, s.step)
  {
  }

  lemma ExtendsVerdict(s: State, s': State, a: AskId, loads: bool, op: string, r: Record)
    requires Verdicts(s) && ColumnFits(s.hist, op, r) && ResumeFrame(s, s', a, loads) && SameCards(s, s')
    requires s'.hist.applied == s.hist.applied + multiset{r.id} && s'.hist.consumer == s.hist.consumer[r.id := a]
    ensures Extends(s.hist, s'.hist, s.step)
  {
  }

  lemma ExtendsResume(s: State, s': State, a: AskId, loads: bool)
    requires CardIds(s) && Verdicts(s) && Columns(s) && Resumable(s, a)
    requires ResumeEffect(s, s', a, s.suspended[a].ask, s.suspended[a].id, loads)
    ensures Extends(s.hist, s'.hist, s.step)
  {
    var ask, id := s.suspended[a].ask, s.suspended[a].id;
    hide Extends, Verdicts, ResumeFrame, ResumeOpens, SameCards, ColumnFits;
    match Find(s.core, ask, loads, s.now)
    case Verdict(r) => ExtendsVerdict(s, s', a, loads, ask.op.value, r);
    case Window(r) => ExtendsUp(s, s', a, ask, id, loads, r.requestedAt);
    case Stale(_) => ExtendsUp(s, s', a, ask, id, loads, s.now);
    case Nothing => ExtendsUp(s, s', a, ask, id, loads, s.now);
  }

  lemma ExtendsQuiet(s: State, s': State, act: Action)
    requires Grants(s) && Verdicts(s) && Columns(s) && QuietEffect(s, s', act)
    ensures Extends(s.hist, s'.hist, s.step)
  {
    hide QuietSlotsEffect;
    TurnsQuiet(s, s', act);
    if act.GiveGrant? {
      assert !GrantMinted(GrantId(s.core.nextGrant, s.now), s.now, s.bootAt, s.core.nextGrant);
    }
    if act.OpClicks? && Awaits(s.core, act.op, act.id) {
      assert ColumnFits(s.hist, act.op, s.core.columns[act.op]);
    }
    hide Columns, Verdicts;
  }

  lemma TurnsQuiet(s: State, s': State, act: Action)
    requires QuietSlotsEffect(s, s', act)
    ensures forall x, t :: (x, t) in s'.hist.turns ==> (x, t) in s.hist.turns || t >= s.step
  {
  }

  lemma ExtendsCrash(s: State, s': State)
    requires CrashEffect(s, s')
    ensures Extends(s.hist, s'.hist, s.step)
  {
  }

  lemma ExtendsSettle(s: State, s': State, ids: set<CardId>, how: How, outcome: Outcome)
    requires Cards(s) && SettledBy(s, s', ids, how, outcome) && s'.hist.turns == s.hist.turns
    ensures Extends(s.hist, s'.hist, s.step)
  {
  }

  lemma NewAnswer(s: State, s': State, a: AskId, ask: Ask, outcome: Outcome, why: Why)
    requires Grants(s) && Memory(s) && Mutes(s) && Steps(s) && a !in s.hist.asked
    requires AskFrame(s, s', a, ask) && AskAnswered(s, s', a, ask, outcome, why) && Extends(s.hist, s'.hist, s.step)
    ensures Justified(s'.hist, a, Answer(outcome, why, s.step, s.now))
  {
    match why
    case ByGrant =>
      var g := s.core.grants[ask.Granted()];
      assert g in s.hist.given && g !in s.hist.taken;
      assert GrantUsed(s'.hist, a, g, s.step);
    case ByMemory =>
      hide Grants, Steps;
      var id :| AllowedBy(s.hist, ask.session, ask.Cache(), id, s.step);
      AllowedStays(s.hist, s'.hist, ask.session, ask.Cache(), id, s.step, s.step);
    case BySuppression =>
      hide Grants, Steps;
      var v := s.core.suppressed[ask.Exact()];
      var id :| SilencedBy(s.hist, ask.Exact(), v, id, s.step);
      SilencedStays(s.hist, s'.hist, ask.Exact(), v, id, s.step, s.step);
      assert SilencedBy(s'.hist, ask.Exact(), Suppression(v.ts, outcome.reason), id, s.step);
    case ByRecord(_) =>
  }

  lemma AnswersAsk(s: State, s': State, a: AskId, ask: Ask, r: Step)
    requires Answers(s) && Grants(s) && Memory(s) && Mutes(s) && Steps(s) && CardIds(s)
    requires a !in s.hist.asked && AskEffect(s, s', a, ask, r)
    ensures Answers(s')
  {
    ExtendsAsk(s, s', a, ask, r);
    hide Extends, CardIds, AskFrame, Answers, Memory, Mutes, Steps, Grants;
    match r
    case Returned(outcome, why) =>
      assert s'.hist.answers == s.hist.answers[a := Answer(outcome, why, s.step, s.now)];
      NewAnswer(s, s', a, ask, outcome, why);
      AnswersGrow(s, s', a, Answer(outcome, why, s.step, s.now));
    case _ => AnswersStay(s, s');
  }

  lemma NewVerdict(s: State, s': State, a: AskId, ask: Ask, loads: bool, r: Record, w: Answer)
    requires ask.op.Some? && Verdicts(s) && ColumnFits(s.hist, ask.op.value, r)
    requires a in s.hist.asked && s.hist.asked[a] == ask && r.decision.Some? && SameAsk(r, ask.tool, ask.Preview()) && !Expired(r, s.now)
    requires ResumeFrame(s, s', a, loads) && SameCards(s, s')
    requires s'.hist.applied == s.hist.applied + multiset{r.id} && s'.hist.consumer == s.hist.consumer[r.id := a]
    requires w == Answer(if r.decision.value.approved then Approved(NoGrant) else Denied(Declined), ByRecord(r.id), s.step, s.now)
    ensures Justified(s'.hist, a, w)
  {
    assert VerdictApplied(s'.hist, a, r.id, r.decision.value.approved, w.at);
  }

  lemma AnswersVerdict(s: State, s': State, a: AskId, loads: bool, r: Record)
    requires Answers(s) && Steps(s) && AskIds(s) && Columns(s) && Verdicts(s) && Resumable(s, a)
    requires ResumeEffect(s, s', a, s.suspended[a].ask, s.suspended[a].id, loads)
    requires Find(s.core, s.suspended[a].ask, loads, s.now) == Verdict(r) && Extends(s.hist, s'.hist, s.step)
    ensures Answers(s')
  {
    hide Extends, Verdicts, Answers, Steps, ResumeFrame, ColumnFits, SameCards, Justified;
    NewVerdict(s, s', a, s.suspended[a].ask, loads, r, s'.hist.answers[a]);
    AnswersGrow(s, s', a, s'.hist.answers[a]);
  }

  lemma AnswersResume(s: State, s': State, a: AskId, loads: bool)
    requires Answers(s) && Steps(s) && CardIds(s) && AskIds(s) && Columns(s) && Verdicts(s) && Resumable(s, a)
    requires ResumeEffect(s, s', a, s.suspended[a].ask, s.suspended[a].id, loads)
    ensures Answers(s')
  {
    ExtendsResume(s, s', a, loads);
    hide Extends, CardIds, AskIds, Columns, Verdicts, Answers, Steps, ResumeFrame, Find;
    match Find(s.core, s.suspended[a].ask, loads, s.now)
    case Verdict(r) => AnswersVerdict(s, s', a, loads, r);
    case _ => AnswersStay(s, s');
  }

  // ---- one durable resolve per settled card ----

  /** No resolve event names this card. */
  ghost predicate Unresolved(events: multiset<DurableEvent>, id: CardId) {
    forall e :: e in events && e.Resolved? ==> e.id != id
  }

  /** Exactly one resolve event names this card, and it is e. */
  ghost predicate ResolvedOnce(events: multiset<DurableEvent>, e: DurableEvent)
    requires e.Resolved?
  {
    events[e] == 1 && forall x :: x in events && x.Resolved? && x.id == e.id ==> x == e
  }

  ghost predicate Shadowed(h: History, id: CardId) {
    id in h.cards && h.cards[id].shadowed && h.cards[id].ask.op.Some?
  }

  ghost predicate Events(s: State) {
    && (forall e :: e in s.core.events && e.Resolved? ==> e.id in s.hist.cards && e.id !in s.core.pending)
    && (forall id :: id in s.hist.settled && Shadowed(s.hist, id) ==>
          ResolvedOnce(s.core.events, SettleEvent(id, s.hist.cards[id].ask, s.hist.settled[id].outcome)))
  }

  /** Adding a resolve of a card that never settles, or any request, leaves the settled cards' records alone. */
  lemma EventsGrow(s: State, s': State, e: DurableEvent)
    requires Events(s) && s'.core.events == s.core.events + multiset{e} && s'.hist.settled == s.hist.settled
    requires forall id :: id in s.hist.cards ==> id in s'.hist.cards && s'.hist.cards[id] == s.hist.cards[id]
    requires forall id :: id in s.hist.settled ==> id in s.hist.cards
    requires forall id :: id in s'.core.pending ==> id in s.core.pending || id !in s.hist.cards
    requires e.Resolved? ==> e.id in s.hist.cards && e.id !in s.hist.settled && e.id !in s'.core.pending
    ensures Events(s')
  {
    forall id | id in s'.hist.settled && Shadowed(s'.hist, id)
      ensures ResolvedOnce(s'.core.events, SettleEvent(id, s'.hist.cards[id].ask, s'.hist.settled[id].outcome))
    {
      assert Shadowed(s.hist, id);
    }
  }

  lemma EventsSame(s: State, s': State)
    requires Events(s) && s'.core.events == s.core.events && s'.hist.settled == s.hist.settled
    requires forall id :: id in s.hist.cards ==> id in s'.hist.cards && s'.hist.cards[id] == s.hist.cards[id]
    requires forall id :: id in s.hist.settled ==> id in s.hist.cards
    requires forall id :: id in s'.core.pending ==> id in s.core.pending || id !in s.hist.cards
    ensures Events(s')
  {
    forall id | id in s'.hist.settled && Shadowed(s'.hist, id)
      ensures ResolvedOnce(s'.core.events, SettleEvent(id, s'.hist.cards[id].ask, s'.hist.settled[id].outcome))
    {
      assert Shadowed(s.hist, id);
    }
  }

  lemma EventsAsk(s: State, s': State, a: AskId, ask: Ask, r: Step)
    requires Events(s) && Cards(s) && CardIds(s) && AskEffect(s, s', a, ask, r)
    ensures Events(s')
  {
    AskGrows(s, s', a, ask, r);
    hide CardIds, Events;
    EventsSame(s, s');
  }

  lemma EventsStale(s: State, s': State, a: AskId, ask: Ask, id: CardId, loads: bool, r: Record)
    requires Events(s) && Cards(s) && ask.op.Some? && id !in s.hist.cards && ColumnFits(s.hist, ask.op.value, r)
    requires r.id !in s.core.pending && ResumeFrame(s, s', a, loads) && ResumeOpens(s, s', a, ask, id, s.now)
    requires s'.core.events == s.core.events + multiset{StaleEvent(ask.op.value, r, s.now)}
                               + multiset{Requested(ask.op.value, id, ask.tool)}
    ensures Events(s')
  {
    var mid := s.(core := s.core.(events := s.core.events + multiset{StaleEvent(ask.op.value, r, s.now)}));
    assert forall i :: i in s.hist.settled ==> i in s.hist.cards;
    hide Events, Cards;
    EventsGrow(s, mid, StaleEvent(ask.op.value, r, s.now));
    EventsGrow(mid, s', Requested(ask.op.value, id, ask.tool));
  }

  lemma EventsUp(s: State, s': State, a: AskId, ask: Ask, id: CardId, loads: bool, at: int)
    requires Events(s) && Cards(s) && ask.op.Some? && id !in s.hist.cards
    requires ResumeFrame(s, s', a, loads) && ResumeOpens(s, s', a, ask, id, at)
    requires s'.core.events == if s'.core.bridge then s.core.events + multiset{Requested(ask.op.value, id, ask.tool)}
                               else s.core.events
    ensures Events(s')
  {
    assert forall i :: i in s.hist.settled ==> i in s.hist.cards;
    hide Events, Cards;
    if s'.core.bridge {
      EventsGrow(s, s', Requested(ask.op.value, id, ask.tool));
    } else {
      EventsSame(s, s');
    }
  }

  lemma EventsResume(s: State, s': State, a: AskId, loads: bool)
    requires Events(s) && Cards(s) && CardIds(s) && Columns(s) && Resumable(s, a)
    requires ResumeEffect(s, s', a, s.suspended[a].ask, s.suspended[a].id, loads)
    ensures Events(s')
  {
    var ask, id := s.suspended[a].ask, s.suspended[a].id;
    assert id !in s.hist.cards;
    assert s'.core.bridge == (s.core.bridge || loads);
    hide Events, CardIds, ResumeOpens, ColumnFits;
    match Find(s.core, ask, loads, s.now)
    case Verdict(_) =>
      assert forall i :: i in s.hist.settled ==> i in s.hist.cards;
      EventsSame(s, s');
    case Window(r) => EventsUp(s, s', a, ask, id, loads, r.requestedAt);
    case Stale(r) => EventsStale(s, s', a, ask, id, loads, r);
    case Nothing => EventsUp(s, s', a, ask, id, loads, s.now);
  }

  lemma EventsQuiet(s: State, s': State, act: Action)
    requires Events(s) && Cards(s) && Columns(s) && Quiet(s, act) && QuietEffect(s, s', act)
    ensures Events(s')
  {
    hide QuietGrantsEffect, QuietSlotsEffect, Events;
    assert forall i :: i in s.hist.settled ==> i in s.hist.cards;
    if act.ExpireColumn? && s'.core.events != s.core.events {
      var r := s.core.columns[act.op];
      assert ColumnFits(s.hist, act.op, r);
      EventsGrow(s, s', Resolved(act.op, r.id, r.tool, false, Some(TimedOut), true));
    } else if act.OpClicks? && Awaits(s.core, act.op, act.id) {
      var r := s.core.columns[act.op];
      assert ColumnFits(s.hist, act.op, r);
      EventsGrow(s, s', Resolved(act.op, act.id, r.tool, act.approved, if act.approved then None else Some(Declined), true));
    } else {
      EventsSame(s, s');
    }
  }

  lemma EventsCrash(s: State, s': State)
    requires Events(s) && Cards(s) && CrashEffect(s, s')
    ensures Events(s')
  {
    EventsSame(s, s');
  }

  lemma EventsNow(s: State, ids: set<CardId>, outcome: Outcome, id: CardId, events: multiset<DurableEvent>)
    requires Events(s) && ids <= s.core.pending.Keys && id in ids && s.core.pending[id].ask.op.Some?
    requires events == s.core.events + multiset(OutcomeEvents(s.core.pending, ids, outcome))
    ensures ResolvedOnce(events, SettleEvent(id, s.core.pending[id].ask, outcome))
  {
    assert SettleEvent(id, s.core.pending[id].ask, outcome) in OutcomeEvents(s.core.pending, ids, outcome);
  }

  lemma EventsStill(s: State, ids: set<CardId>, outcome: Outcome, e: DurableEvent, events: multiset<DurableEvent>)
    requires ids <= s.core.pending.Keys && e.Resolved? && e.id !in ids && ResolvedOnce(s.core.events, e)
    requires events == s.core.events || events == s.core.events + multiset(OutcomeEvents(s.core.pending, ids, outcome))
    ensures ResolvedOnce(events, e)
  {
  }

  lemma EventsKnown(s: State, s': State, ids: set<CardId>, how: How, outcome: Outcome)
    requires Events(s) && Cards(s) && SettledBy(s, s', ids, how, outcome) && EventsEffect(s, s', ids, outcome)
    ensures forall e :: e in s'.core.events && e.Resolved? ==> e.id in s'.hist.cards && e.id !in s'.core.pending
  {
    forall e | e in s'.core.events && e.Resolved?
      ensures e.id in s'.hist.cards && e.id !in s'.core.pending
    {
      assert e in s.core.events || e in OutcomeEvents(s.core.pending, ids, outcome);
    }
  }

  lemma SettledView(s: State, s': State, ids: set<CardId>, how: How, outcome: Outcome)
    requires SettledBy(s, s', ids, how, outcome)
    ensures ids <= s.core.pending.Keys && s'.hist.cards == s.hist.cards && s'.core.bridge == s.core.bridge
    ensures forall id :: id in s'.hist.settled ==>
              if id in ids then s'.hist.settled[id].outcome == outcome
              else id in s.hist.settled && s'.hist.settled[id] == s.hist.settled[id]
  {
  }

  lemma EventsOne(s: State, s': State, ids: set<CardId>, outcome: Outcome, id: CardId)
    requires Events(s) && Cards(s) && Verdicts(s) && ids <= s.core.pending.Keys && EventsEffect(s, s', ids, outcome)
    requires s'.hist.cards == s.hist.cards && Shadowed(s.hist, id)
    requires id in ids || id in s.hist.settled
    ensures var told := if id in ids then outcome else s.hist.settled[id].outcome;
            ResolvedOnce(s'.core.events, SettleEvent(id, s.hist.cards[id].ask, told))
  {
    hide ResolvedOnce, OutcomeEvents;
    if id in ids {
      EventsNow(s, ids, outcome, id, s'.core.events);
    } else {
      EventsStill(s, ids, outcome, SettleEvent(id, s.hist.cards[id].ask, s.hist.settled[id].outcome), s'.core.events);
    }
  }

  lemma EventsSettle(s: State, s': State, ids: set<CardId>, how: How, outcome: Outcome)
    requires Events(s) && Cards(s) && Verdicts(s)
    requires SettledBy(s, s', ids, how, outcome) && EventsEffect(s, s', ids, outcome)
    ensures Events(s')
  {
    hide SettledBy, EventsEffect, Verdicts, Cards, ResolvedOnce, SettleEvent;
    SettledView(s, s', ids, how, outcome);
    EventsKnown(s, s', ids, how, outcome);
    forall id | id in s'.hist.settled && Shadowed(s'.hist, id)
      ensures ResolvedOnce(s'.core.events, SettleEvent(id, s'.hist.cards[id].ask, s'.hist.settled[id].outcome))
    {
      EventsOne(s, s', ids, outcome, id);
    }
  }

  // ---- coalescing ----

  /** No op-scoped ask has ever been made for exactly this call. */
  ghost predicate NeverOpScoped(h: History, k: ExactKey) {
    forall a :: a in h.asked && h.asked[a].op.Some? ==> h.asked[a].Exact() != k
  }

  /** A call never asked for by an op has its one open or just-settled card in the coalescing slot. */
  ghost predicate InSlot(s: State, id: CardId) {
    (id in s.core.pending || id in s.core.releases) && id in s.hist.cards ==>
      NeverOpScoped(s.hist, s.hist.cards[id].ask.Exact()) ==>
        s.hist.cards[id].ask.Exact() in s.core.inflight && s.core.inflight[s.hist.cards[id].ask.Exact()] == id
  }

  ghost predicate Coalesced(s: State) {
    forall id :: InSlot(s, id)
  }

  lemma NeverBefore(h: History, h': History, k: ExactKey)
    requires NeverOpScoped(h', k) && forall a :: a in h.asked ==> a in h'.asked && h'.asked[a] == h.asked[a]
    ensures NeverOpScoped(h, k)
  {
  }

  lemma SlotUp(s: State, s': State, a: AskId, ask: Ask, id: CardId, at: int, i: CardId)
    requires InSlot(s, i) && Slots(s) && ask.Exact() !in s.core.inflight && i != id
    requires AskFrame(s, s', a, ask) && a !in s.hist.asked && Opened(s, s', a, ask, id, at, false)
    requires i in s.core.pending ==> i in s.hist.cards
    ensures InSlot(s', i)
  {
    if i in s'.hist.cards && NeverOpScoped(s'.hist, s'.hist.cards[i].ask.Exact()) {
      NeverBefore(s.hist, s'.hist, s'.hist.cards[i].ask.Exact());
    }
  }

  lemma CoalescedUp(s: State, s': State, a: AskId, ask: Ask, id: CardId, at: int)
    requires Coalesced(s) && Cards(s) && Slots(s) && id !in s.hist.cards && ask.Exact() !in s.core.inflight
    requires AskFrame(s, s', a, ask) && a !in s.hist.asked && Opened(s, s', a, ask, id, at, false)
    ensures Coalesced(s')
  {
    assert InSlot(s', id);
    hide InSlot, Slots, AskFrame, Opened;
    forall i
      ensures InSlot(s', i)
    {
      if i != id {
        SlotUp(s, s', a, ask, id, at, i);
      }
    }
  }

  lemma CoalescedAsk(s: State, s': State, a: AskId, ask: Ask, r: Step)
    requires Coalesced(s) && Cards(s) && Slots(s) && CardIds(s) && a !in s.hist.asked && AskEffect(s, s', a, ask, r)
    ensures Coalesced(s')
  {
    if r.Opens? {
      assert !Minted(r.id, s.now, s.bootAt, s.core.nextCard);
      assert r.id !in s.hist.cards;
      hide CardIds, Coalesced, Cards, Slots, Opened, AskFrame;
      CoalescedUp(s, s', a, ask, r.id, r.requestedAt);
    } else {
      hide CardIds, Cards, Slots, SameTakes;
      forall id
        ensures InSlot(s', id)
      {
        assert InSlot(s, id);
        if id in s'.hist.cards && NeverOpScoped(s'.hist, s'.hist.cards[id].ask.Exact()) {
          NeverBefore(s.hist, s'.hist, s'.hist.cards[id].ask.Exact());
        }
      }
    }
  }

  lemma CoalescedResume(s: State, s': State, a: AskId, loads: bool,
                        up: bool, at: int, answer: Answer)
    requires Coalesced(s) && Cards(s) && Slots(s) && CardIds(s) && AskIds(s) && Resumable(s, a)
    requires ResumeOutline(s, s', a, s.suspended[a].ask, s.suspended[a].id, loads, up, at, answer)
    ensures Coalesced(s')
  {
    forall id
      ensures InSlot(s', id)
    {
      assert InSlot(s, id);
      if id in s'.hist.cards && NeverOpScoped(s'.hist, s'.hist.cards[id].ask.Exact()) {
        NeverBefore(s.hist, s'.hist, s'.hist.cards[id].ask.Exact());
      }
      assert s'.hist.asked[a].op.Some?;
    }
  }

  lemma CoalescedQuiet(s: State, s': State, act: Action)
    requires Coalesced(s) && Slots(s) && Cards(s) && QuietEffect(s, s', act)
    ensures Coalesced(s')
  {
    hide QuietGrantsEffect, QuietColumnsEffect;
    forall id
      ensures InSlot(s', id)
    {
      assert InSlot(s, id);
      assert act.ReleaseSlot? ==> InSlot(s, act.id);
      if id in s'.hist.cards && NeverOpScoped(s'.hist, s'.hist.cards[id].ask.Exact()) {
        NeverBefore(s.hist, s'.hist, s'.hist.cards[id].ask.Exact());
      }
    }
  }

  lemma CoalescedSettle(s: State, s': State, ids: set<CardId>, how: How, outcome: Outcome)
    requires Coalesced(s) && Cards(s) && SettledBy(s, s', ids, how, outcome)
    ensures Coalesced(s')
  {
    forall id
      ensures InSlot(s', id)
    {
      assert InSlot(s, id);
      if id in s'.hist.cards && NeverOpScoped(s'.hist, s'.hist.cards[id].ask.Exact()) {
        NeverBefore(s.hist, s'.hist, s'.hist.cards[id].ask.Exact());
      }
    }
  }

  // ---- the whole invariant ----

  ghost predicate Invariant(s: State) {
    && CardIds(s) && AskIds(s) && Steps(s) && Marks(s) && Cards(s) && Promises(s) && Grants(s)
    && Memory(s) && Mutes(s) && Columns(s) && Verdicts(s) && Answers(s) && Events(s) && Coalesced(s)
  }

  lemma InvariantInitially(now: int)
    ensures Invariant(Initial(now))
  {
  }

  lemma AskIsCalm(s: State, s': State, a: AskId, ask: Ask, r: Step)
    requires Memory(s) && Mutes(s) && Marks(s) && CardIds(s) && AskEffect(s, s', a, ask, r)
    ensures Memory(s') && Mutes(s') && Marks(s')
  {
    hide AskEffect, Memory, Mutes, Marks, CardIds;
    AskGrows(s, s', a, ask, r);
    AskFramed(s, s', a, ask, r);
    MarksAsk(s, s', a, ask, r);
    MemoryKept(s, s');
    MutesKept(s, s');
  }

  lemma KeptByAsk(s: State, act: Action)
    requires Invariant(s) && act.StartAsk? && act.a !in s.hist.asked
    ensures Invariant(Next(s, act))
  {
    hide Next, AskStep, AskEffect, CardIds, AskIds, Steps, Marks, Cards, Slots, Riders, Grants, Memory, Mutes, Columns,
         Verdicts, Answers, Events, Coalesced, Calm;
    var s' := Next(s, act);
    var r := AskEffects(s, act.a, act.ask);
    CardIdsAsk(s, s', act.a, act.ask, r);
    AskIdsAsk(s, s', act.a, act.ask, r);
    StepsAsk(s, s', act.a, act.ask, r);
    AskIsCalm(s, s', act.a, act.ask, r);
    CardsAsk(s, s', act.a, act.ask, r);
    SlotsAsk(s, s', act.a, act.ask, r);
    RidersAsk(s, s', act.a, act.ask, r);
    GrantsAsk(s, s', act.a, act.ask, r);
    ColumnsAsk(s, s', act.a, act.ask, r);
    AnswersAsk(s, s', act.a, act.ask, r);
    EventsAsk(s, s', act.a, act.ask, r);
    CoalescedAsk(s, s', act.a, act.ask, r);
  }

  lemma ResumeIsCalm(s: State, s': State, a: AskId, loads: bool)
    requires Memory(s) && Mutes(s) && Marks(s) && Extends(s.hist, s'.hist, s.step) && ResumeFrame(s, s', a, loads)
    ensures Memory(s') && Mutes(s')
  {
    assert Later(s.hist, s'.hist, s.step);
    hide Extends, Memory, Mutes, Marks, Later;
    MemoryKept(s, s');
    MutesKept(s, s');
  }

  lemma KeptByResume(s: State, act: Action)
    requires Invariant(s) && act.BridgeSettles? && Resumable(s, act.a)
    ensures Invariant(Next(s, act))
  {
    hide Next, Find, CardIds, AskIds, Steps, Marks, Cards, Slots, Riders, Grants, Memory, Mutes, Columns,
         Verdicts, Answers, Events, Coalesced, ResumeEffect, ResumeFrame, ResumeOutline, Extends;
    var s' := Next(s, act);
    ResumeEffects(s, act.a, act.loads);
    var up, at, answer := ResumeOutlined(s, s', act.a, s.suspended[act.a].ask, s.suspended[act.a].id, act.loads);
    CardIdsResume(s, s', act.a, act.loads, up, at, answer);
    AskIdsResume(s, s', act.a, act.loads, up, at, answer);
    StepsResume(s, s', act.a, act.loads, up, at, answer);
    MarksResume(s, s', act.a, act.loads);
    CardsResume(s, s', act.a, act.loads, up, at, answer);
    PromisesResume(s, s', act.a, act.loads, up, at, answer);
    GrantsResume(s, s', act.a, act.loads, up, at, answer);
    ExtendsResume(s, s', act.a, act.loads);
    assert ResumeFrame(s, s', act.a, act.loads) by { OutlineFrames(s, s', act.a, act.loads, up, at, answer); }
    ResumeIsCalm(s, s', act.a, act.loads);
    ColumnsResume(s, s', act.a, act.loads);
    AnswersResume(s, s', act.a, act.loads);
    EventsResume(s, s', act.a, act.loads);
    CoalescedResume(s, s', act.a, act.loads, up, at, answer);
  }

  lemma OutlineFrames(s: State, s': State, a: AskId, loads: bool,
                      up: bool, at: int, answer: Answer)
    requires Resumable(s, a)
    requires ResumeOutline(s, s', a, s.suspended[a].ask, s.suspended[a].id, loads, up, at, answer)
    ensures ResumeFrame(s, s', a, loads)
  {
  }

  lemma QuietIsCalm(s: State, s': State, act: Action)
    requires Memory(s) && Mutes(s) && Marks(s) && Extends(s.hist, s'.hist, s.step)
    requires QuietFrame(s, s') && QuietSlotsEffect(s, s', act)
    ensures Memory(s') && Mutes(s')
  {
    assert Later(s.hist, s'.hist, s.step);
    hide Extends, Memory, Mutes, Later;
    MemoryKept(s, s');
    MutesKept(s, s');
  }

  lemma KeptByQuiet(s: State, act: Action)
    requires Invariant(s) && Quiet(s, act)
    ensures Invariant(Next(s, act))
  {
    hide Next, CardIds, AskIds, Steps, Marks, Cards, Slots, Riders, Grants, Memory, Mutes, Columns, Extends,
         Verdicts, Answers, Events, Coalesced, QuietFrame, QuietGrantsEffect, QuietSlotsEffect, QuietColumnsEffect, Quiet;
    var s' := Next(s, act);
    QuietEffects(s, act);
    CardIdsQuiet(s, s');
    AskIdsQuiet(s, s');
    StepsQuiet(s, s', act);
    MarksQuiet(s, s', act);
    CardsQuiet(s, s');
    PromisesQuiet(s, s', act);
    GrantsQuiet(s, s', act);
    ExtendsQuiet(s, s', act);
    QuietIsCalm(s, s', act);
    ColumnsQuiet(s, s', act);
    assert s'.hist.answers == s.hist.answers by { QuietAnswers(s, s'); }
    AnswersStay(s, s');
    EventsQuiet(s, s', act);
    CoalescedQuiet(s, s', act);
  }

  lemma QuietAnswers(s: State, s': State)
    requires QuietFrame(s, s')
    ensures s'.hist.answers == s.hist.answers
  {
  }

  lemma KeptByCrash(s: State, act: Action)
    requires Invariant(s) && act.Crash?
    ensures Invariant(Next(s, act))
  {
    hide Next, CardIds, AskIds, Steps, Marks, Cards, Slots, Riders, Grants, Columns, Extends, Verdicts, Answers, Events;
    var s' := Next(s, act);
    CrashEffects(s, act);
    CardIdsQuiet(s, s');
    AskIdsQuiet(s, s');
    StepsCrash(s, s');
    MarksCrash(s, s');
    CardsCrash(s, s');
    PromisesCrash(s, s');
    GrantsCrash(s, s');
    ExtendsCrash(s, s');
    ColumnsCrash(s, s');
    AnswersStay(s, s');
    EventsCrash(s, s');
  }

  lemma KeptBySettling(s: State, act: Action)
    requires Invariant(s) && !Quiet(s, act) && !act.StartAsk? && !act.BridgeSettles? && !act.Crash?
    ensures Invariant(Next(s, act))
  {
    hide Next, CardIds, AskIds, Steps, Marks, Cards, Slots, Riders, Grants, Memory, Mutes, Columns, Extends,
         Verdicts, Answers, Events, Coalesced, Quiet, EventsEffect, MemoryEffect, MuteEffect, SettledBy;
    var s' := Next(s, act);
    var ids, how, outcome := Settlers(s, act);
    assert ids <= s.core.pending.Keys && s'.hist.turns == s.hist.turns && s'.hist.answers == s.hist.answers by {
      SettledBasics(s, s', ids, how, outcome);
    }
    SettlerMemory(s, act, ids, how, outcome);
    SettlerEvents(s, act, ids, how, outcome);
    CardIdsSettle(s, s', ids, how, outcome);
    AskIdsSettle(s, s', ids, how, outcome);
    StepsSettle(s, s', ids, how, outcome);
    MarksSettle(s, s', ids, how, outcome);
    CardsSettle(s, s', ids, how, outcome);
    PromisesSettle(s, s', ids, how, outcome);
    GrantsSettle(s, s', ids, how, outcome);
    MemorySettle(s, s', ids, how, outcome);
    MutesSettle(s, s', ids, how, outcome);
    ColumnsSettle(s, s', ids, how, outcome);
    VerdictsSettle(s, s', ids, how, outcome);
    ExtendsSettle(s, s', ids, how, outcome);
    AnswersStay(s, s');
    EventsSettle(s, s', ids, how, outcome);
    CoalescedSettle(s, s', ids, how, outcome);
  }

  lemma SettledBasics(s: State, s': State, ids: set<CardId>, how: How, outcome: Outcome)
    requires SettledBy(s, s', ids, how, outcome)
    ensures ids <= s.core.pending.Keys && s'.hist.turns == s.hist.turns && s'.hist.answers == s.hist.answers
  {
  }

  lemma InvariantKept(s: State, act: Action)
    requires Invariant(s)
    ensures Invariant(Next(s, act))
  {
    hide Next, Invariant;
    if (act.StartAsk? && act.a in s.hist.asked) || (act.BridgeSettles? && !Resumable(s, act.a)) {
      Ignored(s, act);
      KeptByQuiet(s, Tick(0));
    } else if act.StartAsk? {
      KeptByAsk(s, act);
    } else if act.BridgeSettles? {
      KeptByResume(s, act);
    } else if act.Crash? {
      KeptByCrash(s, act);
    } else if Quiet(s, act) {
      KeptByQuiet(s, act);
    } else {
      KeptBySettling(s, act);
    }
  }

  lemma {:induction false} InvariantOnRuns(s: State, acts: seq<Action>)
    requires Invariant(s)
    ensures Invariant(Run(s, acts))
    decreases |acts|
  {
    hide Next, Invariant;
    if acts == [] {
    } else {
      InvariantOnRuns(s, acts[..|acts| - 1]);
      InvariantKept(Run(s, acts[..|acts| - 1]), acts[|acts| - 1]);
    }
  }
}
