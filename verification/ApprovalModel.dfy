/**
 The approval gate as functions on values: what each synchronous stretch of the
 approval manager, of its one-shot grants and of its durable record does to the
 process memory and to the per-op column. The classes in ApprovalManager.dfy are
 proved against these functions; ApprovalProtocol.dfy composes them into runs.
 */
module ApprovalModel {
  import opened Wrappers

  /** How long one ask stays open, and how long a decline mutes an identical re-issue (ms). */
  const APPROVAL_TIMEOUT_MS: int := 5 * 60000
  const DECLINE_SUPPRESS_MS: int := 60000
  const PREVIEW_LENGTH: nat := 500

  /** A call's arguments: each top-level name with its value's serialised text. */
  type Args = map<string, string>

  /** Keys are kept structured, so a separator inside a session id cannot blur two of them. */
  datatype ExactKey = ExactKey(session: string, tool: string, args: Args)
  datatype CacheKey = CacheKey(tool: string, scope: string)

  /** `apr-<n>-<ms>` and `grant-<n>-<ms>`. */
  datatype CardId = CardId(n: nat, at: int)
  datatype GrantId = GrantId(n: nat, at: int)

  /**
   One call of requestApprovalDetailed. `scope` is what computeArgsFingerprint
   makes of the arguments and `text` their serialised form.
   */
  datatype Ask = Ask(session: string, tool: string, args: Args, scope: string, text: string,
                     alwaysAsk: bool, op: Option<string>)
  {
    function Exact(): ExactKey { ExactKey(session, tool, args) }

    function Cache(): CacheKey { CacheKey(tool, scope) }

    function Granted(): ExactKey { GrantKey(session, tool, args) }

    function Preview(): string {
      if |text| <= PREVIEW_LENGTH then text else text[..PREVIEW_LENGTH]
    }
  }

  /** A one-shot grant is keyed by the model's own arguments: `_` names are the dispatcher's. */
  function GrantKey(session: string, tool: string, args: Args): ExactKey {
    ExactKey(session, tool, map k | k in args && !(|k| > 0 && k[0] == '_') :: args[k])
  }

  datatype Reason = Declined | TimedOut | Superseded

  datatype GrantRef = NoGrant | OneShot(id: GrantId) | FromCard(card: CardId)

  datatype Outcome = Approved(grant: GrantRef) | Denied(reason: Reason)

  datatype Card = Card(ask: Ask, deadline: int)

  datatype Suppression = Suppression(ts: int, reason: Reason)

  /** A decision recorded on a column whose card no longer lives in the process. */
  datatype Decision = Decision(approved: bool, at: int)

  /** The op's pendingApproval column. */
  datatype Record = Record(id: CardId, tool: string, preview: string, requestedAt: int, decision: Option<Decision>)

  datatype DurableEvent =
    | Requested(op: string, id: CardId, tool: string)
    | Resolved(op: string, id: CardId, tool: string, approved: bool, reason: Option<Reason>, recorded: bool)

  /** Memory (lost in a crash) up to `releases`; `columns` and `events` are durable. */
  datatype Core = Core(
    pending: map<CardId, Card>,
    auto: map<string, set<CacheKey>>,
    inflight: map<ExactKey, CardId>,
    suppressed: map<ExactKey, Suppression>,
    grants: map<ExactKey, GrantId>,
    nextCard: nat,
    nextGrant: nat,
    outcomes: map<CardId, Outcome>,       // promises that have resolved
    releases: map<CardId, ExactKey>,      // coalescing slots still to be released
    bridge: bool,                         // the durable bridge is loaded
    columns: map<string, Record>,
    events: multiset<DurableEvent>,
    resolveCalls: multiset<CardId>)       // how often each card's resolve function ran

  /** What an ask's first or second synchronous stretch ends in. */
  datatype Step =
    | Returned(outcome: Outcome, why: Why)
    | Rides(id: CardId)
    | Opens(id: CardId, requestedAt: int)
    | Suspends(id: CardId)

  datatype Why = ByGrant | ByMemory | BySuppression | ByRecord(id: CardId)

  /** Process memory as it is at boot. */
  function Boot(columns: map<string, Record>, events: multiset<DurableEvent>, calls: multiset<CardId>): Core {
    Core(map[], map[], map[], map[], map[], 1, 1, map[], map[], false, columns, events, calls)
  }

  // ---- one-shot grants ----

  function Grant(c: Core, key: ExactKey, now: int): (Core, GrantId) {
    var id := GrantId(c.nextGrant, now);
    (c.(grants := c.grants[key := id], nextGrant := c.nextGrant + 1), id)
  }

  function Revoked(grants: map<ExactKey, GrantId>, id: GrantId): map<ExactKey, GrantId> {
    map k | k in grants && grants[k] != id :: grants[k]
  }

  // ---- the durable record ----

  function ClearColumn(columns: map<string, Record>, op: string, id: CardId): map<string, Record> {
    if op in columns && columns[op].id == id then columns - {op} else columns
  }

  function DurableResolve(c: Core, op: string, id: CardId, tool: string, approved: bool,
                          reason: Option<Reason>, recorded: bool): Core {
    if !c.bridge then c
    else c.(columns := ClearColumn(c.columns, op, id),
            events := c.events + multiset{Resolved(op, id, tool, approved, reason, recorded)})
  }

  predicate Expired(r: Record, now: int) {
    now - r.requestedAt >= APPROVAL_TIMEOUT_MS
  }

  predicate SameAsk(r: Record, tool: string, preview: string) {
    r.tool == tool && r.preview == preview
  }

  datatype Reconciliation = NoSurvivor | Carried(requestedAt: int) | Applied(id: CardId, approved: bool)

  /** reconcileRecoveredAsk: what a column no live card owns means for this ask. */
  function Reconcile(c: Core, op: string, tool: string, preview: string, now: int): (Core, Reconciliation) {
    if !c.bridge || op !in c.columns || c.columns[op].id in c.pending then (c, NoSurvivor)
    else
      var r := c.columns[op];
      if !Expired(r, now) && SameAsk(r, tool, preview) then
        match r.decision
        case Some(d) => (c.(columns := ClearColumn(c.columns, op, r.id)), Applied(r.id, d.approved))
        case None => (c, Carried(r.requestedAt))
      else
        (DurableResolve(c, op, r.id, r.tool, false, Some(if Expired(r, now) then TimedOut else Superseded), true),
         NoSurvivor)
  }

  // ---- asking ----

  function GcSuppressed(s: map<ExactKey, Suppression>, now: int): map<ExactKey, Suppression> {
    map k | k in s && now - s[k].ts <= DECLINE_SUPPRESS_MS :: s[k]
  }

  /** A recent decline or timeout of this exact call still mutes it. */
  predicate Muted(c: Core, k: ExactKey, now: int) {
    k in c.suppressed && now - c.suppressed[k].ts < DECLINE_SUPPRESS_MS
  }

  predicate Remembers(c: Core, ask: Ask) {
    !ask.alwaysAsk && ask.session in c.auto && ask.Cache() in c.auto[ask.session]
  }

  /** The first synchronous stretch of requestApprovalDetailed. */
  function AskStep(c: Core, ask: Ask, now: int): (Core, Step) {
    var gk, k := ask.Granted(), ask.Exact();
    if gk in c.grants then
      (c.(grants := c.grants - {gk}), Returned(Approved(OneShot(c.grants[gk])), ByGrant))
    else if Remembers(c, ask) then
      (c, Returned(Approved(NoGrant), ByMemory))
    else if Muted(c, k, now) then
      (c.(suppressed := GcSuppressed(c.suppressed, now)), Returned(Denied(c.suppressed[k].reason), BySuppression))
    else if k in c.inflight then
      (c.(suppressed := GcSuppressed(c.suppressed, now)), Rides(c.inflight[k]))
    else if ask.op.Some? then
      (c.(suppressed := GcSuppressed(c.suppressed, now), nextCard := c.nextCard + 1), Suspends(CardId(c.nextCard, now)))
    else
      (Register(c, CardId(c.nextCard, now), ask, now, now)
         .(suppressed := GcSuppressed(c.suppressed, now), nextCard := c.nextCard + 1),
       Opens(CardId(c.nextCard, now), now))
  }

  function ShadowColumns(c: Core, id: CardId, ask: Ask, requestedAt: int): map<string, Record> {
    if c.bridge && ask.op.Some? then c.columns[ask.op.value := Record(id, ask.tool, ask.Preview(), requestedAt, None)]
    else c.columns
  }

  function ShadowEvents(c: Core, id: CardId, ask: Ask): multiset<DurableEvent> {
    if c.bridge && ask.op.Some? then c.events + multiset{Requested(ask.op.value, id, ask.tool)} else c.events
  }

  function Deadline(requestedAt: int, now: int): int {
    now + Max(1, requestedAt + APPROVAL_TIMEOUT_MS - now)
  }

  /** Put the card up: pending entry, timer, durable shadow, coalescing slot. */
  function Register(c: Core, id: CardId, ask: Ask, requestedAt: int, now: int): Core {
    c.(pending := c.pending[id := Card(ask, Deadline(requestedAt, now))],
       columns := ShadowColumns(c, id, ask, requestedAt),
       events := ShadowEvents(c, id, ask),
       inflight := c.inflight[ask.Exact() := id])
  }

  /** The second stretch, after the await, of an op-scoped ask. */
  function ResumeStep(c: Core, id: CardId, ask: Ask, loaded: bool, now: int): (Core, Step)
    requires ask.op.Some?
  {
    var c1 := c.(bridge := c.bridge || loaded);
    var (c2, rec) := Reconcile(c1, ask.op.value, ask.tool, ask.Preview(), now);
    match rec
    case Applied(prior, approved) =>
      (c2, Returned(if approved then Approved(NoGrant) else Denied(Declined), ByRecord(prior)))
    case Carried(at) => (Register(c2, id, ask, at, now), Opens(id, at))
    case NoSurvivor => (Register(c2, id, ask, now, now), Opens(id, now))
  }

  // ---- settling ----

  function ResolvedEvent(id: CardId, ask: Ask, approved: bool, reason: Option<Reason>): DurableEvent
    requires ask.op.Some?
  {
    Resolved(ask.op.value, id, ask.tool, approved, reason, false)
  }

  function ColumnsWithout(c: Core, ask: Ask, id: CardId): map<string, Record> {
    if c.bridge && ask.op.Some? then ClearColumn(c.columns, ask.op.value, id) else c.columns
  }

  function EventsWith(c: Core, ask: Ask, id: CardId, outcome: Outcome): multiset<DurableEvent> {
    if c.bridge && ask.op.Some? then
      c.events + multiset{ResolvedEvent(id, ask, outcome.Approved?, if outcome.Denied? then Some(outcome.reason) else None)}
    else c.events
  }

  /** The card leaves the pending map, its durable shadow is resolved and its promise settles. */
  function SettleCard(c: Core, id: CardId, outcome: Outcome): Core
    requires id in c.pending
  {
    var ask := c.pending[id].ask;
    c.(pending := c.pending - {id},
       columns := ColumnsWithout(c, ask, id),
       events := EventsWith(c, ask, id, outcome),
       outcomes := c.outcomes[id := outcome],
       releases := c.releases[id := ask.Exact()],
       resolveCalls := c.resolveCalls + multiset{id})
  }

  /** resolveApproval: the user clicked Approve, Always allow or Deny. */
  function Click(c: Core, id: CardId, approved: bool, remember: bool, now: int): (Core, bool) {
    if id !in c.pending then (c, false)
    else
      var ask := c.pending[id].ask;
      var s := ask.session;
      var auto :=
        if approved && remember && !ask.alwaysAsk then
          c.auto[s := (if s in c.auto then c.auto[s] else {}) + {ask.Cache()}]
        else c.auto;
      var suppressed :=
        if approved then c.suppressed - {ask.Exact()}
        else c.suppressed[ask.Exact() := Suppression(now, Declined)];
      var c1 := SettleCard(c, id, if approved then Approved(FromCard(id)) else Denied(Declined));
      (c1.(auto := auto, suppressed := suppressed), true)
  }

  /** The card's timer fires, never before its deadline. */
  function TimerFires(c: Core, id: CardId, now: int): Core {
    if id !in c.pending || now < c.pending[id].deadline then c
    else
      var k := c.pending[id].ask.Exact();
      SettleCard(c, id, Denied(TimedOut)).(suppressed := c.suppressed[k := Suppression(now, TimedOut)])
  }

  function CardsOf(c: Core, session: string): set<CardId> {
    set id | id in c.pending && c.pending[id].ask.session == session
  }

  function KeysOf(c: Core, ids: set<CardId>): set<ExactKey>
    requires ids <= c.pending.Keys
  {
    set id | id in ids :: c.pending[id].ask.Exact()
  }

  /** The columns that survive when the cards of `ids` settle. */
  function ColumnsAfter(columns: map<string, Record>, pending: map<CardId, Card>, ids: set<CardId>): map<string, Record>
    requires ids <= pending.Keys
  {
    map op | op in columns && !(columns[op].id in ids && pending[columns[op].id].ask.op == Some(op)) :: columns[op]
  }

  /** One resolve event for each op-scoped card of `ids`. */
  function SettleEvents(pending: map<CardId, Card>, ids: set<CardId>, reason: Reason): set<DurableEvent>
    requires ids <= pending.Keys
  {
    set id | id in ids && pending[id].ask.op.Some? :: ResolvedEvent(id, pending[id].ask, false, Some(reason))
  }

  function OutcomesAfter(outcomes: map<CardId, Outcome>, ids: set<CardId>, outcome: Outcome): map<CardId, Outcome> {
    outcomes + map id | id in ids :: outcome
  }

  function ReleasesAfter(releases: map<CardId, ExactKey>, pending: map<CardId, Card>, ids: set<CardId>): map<CardId, ExactKey>
    requires ids <= pending.Keys
  {
    releases + map id | id in ids :: pending[id].ask.Exact()
  }

  /** Every card of `ids` settles as a denial with this reason, in any order. */
  function SettleAll(c: Core, ids: set<CardId>, reason: Reason): Core
    requires ids <= c.pending.Keys
  {
    c.(pending := c.pending - ids,
       columns := if c.bridge then ColumnsAfter(c.columns, c.pending, ids) else c.columns,
       events := if c.bridge then c.events + multiset(SettleEvents(c.pending, ids, reason)) else c.events,
       outcomes := OutcomesAfter(c.outcomes, ids, Denied(reason)),
       releases := ReleasesAfter(c.releases, c.pending, ids),
       resolveCalls := c.resolveCalls + multiset(ids))
  }

  /** These cards are superseded, and their calls are no longer muted. */
  function Supersede(c: Core, ids: set<CardId>): Core
    requires ids <= c.pending.Keys
  {
    SettleAll(c, ids, Superseded).(suppressed := c.suppressed - KeysOf(c, ids))
  }

  /** denyPendingForSession: the user answered in words. */
  function DenyPending(c: Core, session: string): Core {
    Supersede(c, CardsOf(c, session))
  }

  function ClearDeclines(c: Core, session: string): Core {
    c.(suppressed := map k | k in c.suppressed && k.session != session :: c.suppressed[k])
  }

  /** clearSession: teardown. */
  function ClearSession(c: Core, session: string): Core {
    var c1 := ClearDeclines(c, session).(auto := c.auto - {session});
    SettleAll(c1, CardsOf(c1, session), TimedOut)
  }

  /** The promise hook that frees a settled card's coalescing slot. */
  function Release(c: Core, id: CardId): Core {
    if id !in c.releases then c
    else c.(inflight := c.inflight - {c.releases[id]}, releases := c.releases - {id})
  }

  // ---- the op's own control surface ----

  datatype OpResult = Delivered | Recorded | UnknownApproval

  /** opResolveApproval: settle the live card, else record the decision on its column. */
  function OpResolve(c: Core, op: string, id: CardId, approved: bool, remember: bool, now: int): (Core, OpResult) {
    if id in c.pending then (Click(c, id, approved, remember, now).0, Delivered)
    else if op !in c.columns || c.columns[op].id != id then (c, UnknownApproval)
    else
      var r := c.columns[op];
      (c.(columns := c.columns[op := r.(decision := Some(Decision(approved, now)))],
          events := c.events + multiset{Resolved(op, id, r.tool, approved, if approved then None else Some(Declined), true)}),
       Recorded)
  }

  /** resolveExpiredPendingApproval, run for an op that no live card blocks any more. */
  function Hygiene(c: Core, op: string, now: int): Core {
    if op !in c.columns || !Expired(c.columns[op], now) || c.columns[op].id in c.pending then c
    else
      var r := c.columns[op];
      c.(columns := c.columns - {op},
         events := c.events + multiset{Resolved(op, r.id, r.tool, false, Some(TimedOut), true)})
  }
}
