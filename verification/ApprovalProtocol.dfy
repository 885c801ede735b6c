/**
 The approval gate as a transition system. Every synchronous stretch is one step;
 an op-scoped ask is suspended between its two stretches, so anything may happen
 there; a crash wipes the process memory and keeps the durable columns. `History`
 is what an outside observer of the whole run has seen; it never feeds back into
 what the gate does.
 */
module ApprovalProtocol {
  import opened Wrappers
  import opened ApprovalModel

  type AskId = nat

  datatype How = Clicked(approved: bool, remember: bool) | ByTimer | ByReply | ByTeardown

  datatype Settlement = Settlement(how: How, outcome: Outcome, step: nat, at: int)

  datatype CardInfo = CardInfo(ask: Ask, requestedAt: int, at: int, shadowed: bool, step: nat)

  datatype Given = Given(key: ExactKey, step: nat)

  datatype Taken = Taken(ask: AskId, step: nat)

  /** An ask answered at once, without waiting on a card. */
  datatype Answer = Answer(outcome: Outcome, why: Why, step: nat, at: int)

  datatype History = History(
    asked: map<AskId, Ask>,
    answers: map<AskId, Answer>,
    riding: map<AskId, CardId>,             // asks that wait on a card
    cards: map<CardId, CardInfo>,           // every card ever put up
    settled: map<CardId, Settlement>,
    given: map<GrantId, Given>,             // one-shot grants
    taken: map<GrantId, Taken>,
    takeCalls: multiset<GrantId>,
    revoked: map<GrantId, nat>,
    cleared: set<(string, nat)>,            // session teardowns, by step
    turns: set<(string, nat)>,              // user turns starting, by step
    crashes: set<nat>,
    decisions: map<CardId, Decision>,       // decisions recorded for dead cards
    applied: multiset<CardId>,              // recorded decisions handed to a re-ask
    consumer: map<CardId, AskId>,           // ... and to which
    closes: set<(string, nat)>)             // the op's column was cleared at this step

  datatype Suspension = Suspension(ask: Ask, id: CardId)

  datatype State = State(core: Core, now: int, bootAt: int, step: nat,
                         suspended: map<AskId, Suspension>, hist: History)

  datatype Action =
    | Tick(ms: nat)
    | GiveGrant(session: string, tool: string, args: Args)
    | RevokeGrant(grant: GrantId)
    | StartAsk(a: AskId, ask: Ask)
    | BridgeSettles(a: AskId, loads: bool)
    | ReleaseSlot(id: CardId)
    | UserClicks(id: CardId, approved: bool, remember: bool)
    | OpClicks(op: string, id: CardId, approved: bool, remember: bool)
    | Timer(id: CardId)
    | UserReplies(session: string)
    | TurnStarts(session: string)
    | EndSession(session: string)
    | ExpireColumn(op: string)
    | Crash(downMs: nat)

  function Initial(now: int): State {
    State(Boot(map[], multiset{}, multiset{}), now, now, 1, map[],
          History(map[], map[], map[], map[], map[], map[], map[], multiset{}, map[], {}, {}, {}, map[], multiset{}, map[], {}))
  }

  function Settles(h: History, ids: set<CardId>, how: How, outcome: Outcome, step: nat, at: int): History {
    h.(settled := h.settled + map id | id in ids :: Settlement(how, outcome, step, at))
  }

  function Asked(s: State, a: AskId, ask: Ask): State {
    var (c, r) := AskStep(s.core, ask, s.now);
    var h := s.hist;
    match r
    case Returned(outcome, why) =>
      var answers := h.answers[a := Answer(outcome, why, s.step, s.now)];
      if outcome.Approved? && outcome.grant.OneShot? then
        s.(core := c, hist := h.(asked := h.asked[a := ask], answers := answers,
                                 taken := h.taken[outcome.grant.id := Taken(a, s.step)],
                                 takeCalls := h.takeCalls + multiset{outcome.grant.id}))
      else s.(core := c, hist := h.(asked := h.asked[a := ask], answers := answers))
    case Rides(id) => s.(core := c, hist := h.(asked := h.asked[a := ask], riding := h.riding[a := id]))
    case Opens(id, at) =>
      s.(core := c, hist := h.(asked := h.asked[a := ask], riding := h.riding[a := id],
                               cards := h.cards[id := CardInfo(ask, at, s.now, false, s.step)]))
    case Suspends(id) =>
      s.(core := c, suspended := s.suspended[a := Suspension(ask, id)], hist := h.(asked := h.asked[a := ask]))
  }

  /** Does this re-ask find a column that it closes? */
  predicate ClosesColumn(c: Core, ask: Ask, now: int)
    requires ask.op.Some?
  {
    var op := ask.op.value;
    && op in c.columns && op !in Reconcile(c, op, ask.tool, ask.Preview(), now).0.columns
  }

  function ClosesNow(c: Core, ask: Ask, now: int, step: nat): set<(string, nat)>
    requires ask.op.Some?
  {
    if ClosesColumn(c, ask, now) then {(ask.op.value, step)} else {}
  }

  function Resumed(s: State, a: AskId, loads: bool): State
    requires a in s.suspended && s.suspended[a].ask.op.Some?
  {
    var ask, id, h := s.suspended[a].ask, s.suspended[a].id, s.hist;
    var c0 := s.core.(bridge := s.core.bridge || loads);
    var (c, r) := ResumeStep(s.core, id, ask, loads, s.now);
    var closes := h.closes + ClosesNow(c0, ask, s.now, s.step);
    match r
    case Returned(outcome, why) =>
      s.(core := c, suspended := s.suspended - {a},
         hist := h.(answers := h.answers[a := Answer(outcome, why, s.step, s.now)], closes := closes,
                    applied := if why.ByRecord? then h.applied + multiset{why.id} else h.applied,
                    consumer := if why.ByRecord? then h.consumer[why.id := a] else h.consumer))
    case Opens(_, at) =>
      s.(core := c, suspended := s.suspended - {a},
         hist := h.(riding := h.riding[a := id], closes := closes,
                    cards := h.cards[id := CardInfo(ask, at, s.now, c0.bridge, s.step)]))
    case _ => s.(core := c)
  }

  /** The columns cleared between two cores, at this step. */
  function Closing(before: Core, after: Core, step: nat): set<(string, nat)> {
    set op | op in before.columns && op !in after.columns :: (op, step)
  }

  function Outcomed(approved: bool, id: CardId): Outcome {
    if approved then Approved(FromCard(id)) else Denied(Declined)
  }

  function Clicks(s: State, id: CardId, approved: bool, remember: bool): State {
    var (c, live) := Click(s.core, id, approved, remember, s.now);
    if !live then s
    else
      var h := Settles(s.hist, {id}, Clicked(approved, remember), Outcomed(approved, id), s.step, s.now);
      s.(core := c, hist := h.(closes := h.closes + Closing(s.core, c, s.step)))
  }

  /** The column `op` waits on this very card. */
  predicate Awaits(c: Core, op: string, id: CardId) {
    op in c.columns && c.columns[op].id == id
  }

  function OpClicksNext(s: State, op: string, id: CardId, approved: bool, remember: bool): State {
    if id in s.core.pending then Clicks(s, id, approved, remember)
    else if !Awaits(s.core, op, id) then s
    else s.(core := OpResolve(s.core, op, id, approved, remember, s.now).0,
            hist := s.hist.(decisions := s.hist.decisions[id := Decision(approved, s.now)]))
  }

  function TimerNext(s: State, id: CardId): State {
    if id !in s.core.pending || s.now < s.core.pending[id].deadline then s
    else
      var c := TimerFires(s.core, id, s.now);
      var h := Settles(s.hist, {id}, ByTimer, Denied(TimedOut), s.step, s.now);
      s.(core := c, hist := h.(closes := h.closes + Closing(s.core, c, s.step)))
  }

  function RepliesNext(s: State, session: string): State {
    var c := DenyPending(s.core, session);
    var h := Settles(s.hist, CardsOf(s.core, session), ByReply, Denied(Superseded), s.step, s.now);
    s.(core := c, hist := h.(closes := h.closes + Closing(s.core, c, s.step)))
  }

  function EndNext(s: State, session: string): State {
    var c := ClearSession(s.core, session);
    var h := Settles(s.hist, CardsOf(s.core, session), ByTeardown, Denied(TimedOut), s.step, s.now);
    s.(core := c,
       hist := h.(closes := h.closes + Closing(s.core, c, s.step), cleared := h.cleared + {(session, s.step)}))
  }

  function TurnNext(s: State, session: string): State {
    s.(core := ClearDeclines(s.core, session), hist := s.hist.(turns := s.hist.turns + {(session, s.step)}))
  }

  function CrashNext(s: State, down: nat): State {
    s.(core := Boot(s.core.columns, s.core.events, s.core.resolveCalls),
       now := s.now + down + 1, bootAt := s.now + down + 1, suspended := map[],
       hist := s.hist.(crashes := s.hist.crashes + {s.step}))
  }

  function GiveNext(s: State, session: string, tool: string, args: Args): State {
    var key := GrantKey(session, tool, args);
    var (c, g) := Grant(s.core, key, s.now);
    s.(core := c, hist := s.hist.(given := s.hist.given[g := Given(key, s.step)]))
  }

  function RevokeNext(s: State, g: GrantId): State {
    s.(core := s.core.(grants := Revoked(s.core.grants, g)),
       hist := if g in s.hist.revoked || g !in s.hist.given then s.hist else s.hist.(revoked := s.hist.revoked[g := s.step]))
  }

  function ExpireNext(s: State, op: string): State {
    var c := Hygiene(s.core, op, s.now);
    s.(core := c, hist := s.hist.(closes := s.hist.closes + Closing(s.core, c, s.step)))
  }

  /** One step. An action that does not apply leaves everything but the step count alone. */
  function Next(s: State, act: Action): State {
    var s' := match act
      case Tick(ms) => s.(now := s.now + ms)
      case GiveGrant(session, tool, args) => GiveNext(s, session, tool, args)
      case RevokeGrant(g) => RevokeNext(s, g)
      case StartAsk(a, ask) => if a in s.hist.asked then s else Asked(s, a, ask)
      case BridgeSettles(a, loads) =>
        if a in s.suspended && s.suspended[a].ask.op.Some? then Resumed(s, a, loads) else s
      case ReleaseSlot(id) => s.(core := Release(s.core, id))
      case UserClicks(id, approved, remember) => Clicks(s, id, approved, remember)
      case OpClicks(op, id, approved, remember) => OpClicksNext(s, op, id, approved, remember)
      case Timer(id) => TimerNext(s, id)
      case UserReplies(session) => RepliesNext(s, session)
      case TurnStarts(session) => TurnNext(s, session)
      case EndSession(session) => EndNext(s, session)
      case ExpireColumn(op) => ExpireNext(s, op)
      case Crash(down) => CrashNext(s, down);
    s'.(step := s.step + 1)
  }

  function Run(s: State, acts: seq<Action>): State
    decreases |acts|
  {
    if acts == [] then s else Next(Run(s, acts[..|acts| - 1]), acts[|acts| - 1])
  }
}
