/**
 The approval manager with the fields it updates in place. Every method is proved
 against the value functions of ApprovalModel; the loops over maps are proved to
 leave the same state whatever order the entries are visited in.
 */
module ApprovalManager {
  import opened Wrappers
  import opened ApprovalModel

  /** One-shot yeses to exact calls. */
  class CallGrants {
    var grants: map<ExactKey, GrantId>
    var nextId: nat

    constructor ()
      ensures grants == map[] && nextId == 1
    {
      grants, nextId := map[], 1;
    }

    method Grant(session: string, tool: string, args: Args, now: int) returns (id: GrantId)
      modifies this
      ensures id == GrantId(old(nextId), now) && nextId == old(nextId) + 1
      ensures grants == old(grants)[GrantKey(session, tool, args) := id]
    {
      id := GrantId(nextId, now);
      nextId := nextId + 1;
      grants := grants[GrantKey(session, tool, args) := id];
    }

    method Take(session: string, tool: string, args: Args) returns (id: Option<GrantId>)
      modifies this
      ensures var k := GrantKey(session, tool, args);
              id == (if k in old(grants) then Some(old(grants)[k]) else None) && grants == old(grants) - {k}
      ensures nextId == old(nextId)
    {
      var key := GrantKey(session, tool, args);
      if key !in grants {
        assert grants == grants - {key};
        return None;
      }
      id := Some(grants[key]);
      grants := grants - {key};
    }

    method Revoke(id: GrantId)
      modifies this
      ensures grants == Revoked(old(grants), id) && nextId == old(nextId)
    {
      var todo := grants.Keys;
      while todo != {}
        invariant todo <= grants.Keys <= old(grants.Keys)
        invariant forall k :: k in grants ==> grants[k] == old(grants)[k]
        invariant forall k :: k in old(grants) && k !in todo ==> (k in grants <==> old(grants)[k] != id)
        invariant nextId == old(nextId)
      {
        var k :| k in todo;
        todo := todo - {k};
        if grants[k] == id {
          grants := grants - {k};
        }
      }
    }
  }

  /** The lazily loaded bridge and the durable columns and events behind it. */
  class DurableRecord {
    var bridge: bool
    var columns: map<string, Record>
    var events: multiset<DurableEvent>

    constructor (columns: map<string, Record>, events: multiset<DurableEvent>)
      ensures !bridge && this.columns == columns && this.events == events
    {
      bridge := false;
      this.columns, this.events := columns, events;
    }

    /** A failed load is not cached: the next ask tries again. */
    method EnsureBridge(loads: bool)
      modifies this`bridge
      ensures bridge == (old(bridge) || loads)
    {
      if bridge { return; }
      bridge := loads;
    }

    method RecordRequest(op: string, record: Record)
      modifies this`columns, this`events
      ensures !bridge ==> columns == old(columns) && events == old(events)
      ensures bridge ==> columns == old(columns)[op := record]
                         && events == old(events) + multiset{Requested(op, record.id, record.tool)}
    {
      if !bridge { return; }
      columns := columns[op := record];
      events := events + multiset{Requested(op, record.id, record.tool)};
    }

    method RecordResolve(op: string, id: CardId, tool: string, approved: bool, reason: Option<Reason>, recorded: bool)
      modifies this`columns, this`events
      ensures !bridge ==> columns == old(columns) && events == old(events)
      ensures bridge ==> columns == ClearColumn(old(columns), op, id)
                         && events == old(events) + multiset{Resolved(op, id, tool, approved, reason, recorded)}
    {
      if !bridge { return; }
      if op in columns && columns[op].id == id {
        columns := columns - {op};
      }
      events := events + multiset{Resolved(op, id, tool, approved, reason, recorded)};
    }

    method Consume(op: string, id: CardId)
      modifies this`columns
      ensures columns == if bridge then ClearColumn(old(columns), op, id) else old(columns)
    {
      if bridge && op in columns && columns[op].id == id {
        columns := columns - {op};
      }
    }

    method ReconcileRecoveredAsk(op: string, tool: string, preview: string, live: set<CardId>, now: int)
      returns (rec: Reconciliation)
      modifies this`columns, this`events
      ensures forall c: Core :: c.bridge == bridge && c.columns == old(columns) && c.events == old(events) && c.pending.Keys == live
                ==> Reconcile(c, op, tool, preview, now) == (c.(columns := columns, events := events), rec)
    {
      if !bridge || op !in columns { return NoSurvivor; }
      var survivor := columns[op];
      if survivor.id in live { return NoSurvivor; }
      var expired := now - survivor.requestedAt >= APPROVAL_TIMEOUT_MS;
      if !expired && survivor.tool == tool && survivor.preview == preview {
        if survivor.decision.Some? {
          Consume(op, survivor.id);
          return Applied(survivor.id, survivor.decision.value.approved);
        }
        return Carried(survivor.requestedAt);
      }
      RecordResolve(op, survivor.id, survivor.tool, false, Some(if expired then TimedOut else Superseded), true);
      return NoSurvivor;
    }
  }

  class ApprovalManager {
    var pending: map<CardId, Card>
    var sessionAutoApprove: map<string, set<CacheKey>>
    var inflight: map<ExactKey, CardId>
    var suppressed: map<ExactKey, Suppression>
    var nextId: nat
    var outcomes: map<CardId, Outcome>
    var releases: map<CardId, ExactKey>
    ghost var resolveCalls: multiset<CardId>
    const callGrants: CallGrants
    const durable: DurableRecord

    ghost function Abs(): Core
      reads this, callGrants, durable
    {
      Core(pending, sessionAutoApprove, inflight, suppressed, callGrants.grants, nextId, callGrants.nextId,
           outcomes, releases, durable.bridge, durable.columns, durable.events, resolveCalls)
    }

    constructor (durable: DurableRecord, ghost calls: multiset<CardId>)
      requires !durable.bridge
      ensures this.durable == durable && fresh(callGrants)
      ensures Abs() == Boot(durable.columns, durable.events, calls)
    {
      pending, sessionAutoApprove, inflight, suppressed := map[], map[], map[], map[];
      nextId, outcomes, releases := 1, map[], map[];
      resolveCalls := calls;
      callGrants := new CallGrants();
      this.durable := durable;
    }

    method GcSuppressedEntries(now: int)
      modifies this`suppressed
      ensures suppressed == GcSuppressed(old(suppressed), now)
    {
      var todo := suppressed.Keys;
      while todo != {}
        invariant todo <= suppressed.Keys <= old(suppressed.Keys)
        invariant forall k :: k in suppressed ==> suppressed[k] == old(suppressed)[k]
        invariant forall k :: k in old(suppressed) && k !in todo ==>
                    (k in suppressed <==> now - old(suppressed)[k].ts <= DECLINE_SUPPRESS_MS)
      {
        var k :| k in todo;
        todo := todo - {k};
        if now - suppressed[k].ts > DECLINE_SUPPRESS_MS {
          suppressed := suppressed - {k};
        }
      }
    }

    /** The card goes up: one synchronous stretch, shared by both kinds of ask. */
    method RegisterCard(id: CardId, ask: Ask, requestedAt: int, now: int)
      modifies this`pending, this`inflight, durable`columns, durable`events
      ensures Abs() == Register(old(Abs()), id, ask, requestedAt, now)
    {
      pending := pending[id := Card(ask, Deadline(requestedAt, now))];
      if ask.op.Some? {
        durable.RecordRequest(ask.op.value, Record(id, ask.tool, ask.Preview(), requestedAt, None));
      }
      inflight := inflight[ask.Exact() := id];
    }

    /** requestApprovalDetailed up to its await (or to its end, for an ask without an op). */
    method RequestApprovalDetailed(ask: Ask, now: int) returns (step: Step)
      modifies this, callGrants, durable
      ensures (Abs(), step) == AskStep(old(Abs()), ask, now)
    {
      var granted := callGrants.Take(ask.session, ask.tool, ask.args);
      if granted.Some? {
        return Returned(Approved(OneShot(granted.value)), ByGrant);
      }
      assert callGrants.grants == old(callGrants.grants);
      if !ask.alwaysAsk && ask.session in sessionAutoApprove && ask.Cache() in sessionAutoApprove[ask.session] {
        return Returned(Approved(NoGrant), ByMemory);
      }
      var key := ask.Exact();
      GcSuppressedEntries(now);
      if key in suppressed && now - suppressed[key].ts < DECLINE_SUPPRESS_MS {
        return Returned(Denied(suppressed[key].reason), BySuppression);
      }
      if key in inflight {
        return Rides(inflight[key]);
      }
      var id := CardId(nextId, now);
      nextId := nextId + 1;
      if ask.op.Some? {
        return Suspends(id);
      }
      RegisterCard(id, ask, now, now);
      return Opens(id, now);
    }

    /** The rest of an op-scoped ask, once the bridge load has settled. */
    method AfterBridge(id: CardId, ask: Ask, loads: bool, now: int) returns (step: Step)
      requires ask.op.Some?
      modifies this, durable
      ensures (Abs(), step) == ResumeStep(old(Abs()), id, ask, loads, now)
    {
      durable.EnsureBridge(loads);
      ghost var loaded := Abs();
      var rec := durable.ReconcileRecoveredAsk(ask.op.value, ask.tool, ask.Preview(), pending.Keys, now);
      assert Reconcile(loaded, ask.op.value, ask.tool, ask.Preview(), now) == (Abs(), rec);
      match rec {
        case Applied(prior, approved) =>
          return Returned(if approved then Approved(NoGrant) else Denied(Declined), ByRecord(prior));
        case Carried(at) =>
          RegisterCard(id, ask, at, now);
          return Opens(id, at);
        case NoSurvivor =>
          RegisterCard(id, ask, now, now);
          return Opens(id, now);
      }
    }

    /** The settle sequence every path shares; the callers touch only their own maps around it. */
    method Settle(id: CardId, outcome: Outcome)
      requires id in pending
      modifies this`pending, this`outcomes, this`releases, this`resolveCalls, durable`columns, durable`events
      ensures Abs() == SettleCard(old(Abs()), id, outcome) && pending == old(pending) - {id}
    {
      var ask := pending[id].ask;
      pending := pending - {id};
      if ask.op.Some? {
        durable.RecordResolve(ask.op.value, id, ask.tool, outcome.Approved?,
                              if outcome.Denied? then Some(outcome.reason) else None, false);
      }
      outcomes := outcomes[id := outcome];
      releases := releases[id := ask.Exact()];
      resolveCalls := resolveCalls + multiset{id};
      ghost var want := SettleCard(old(Abs()), id, outcome);
      assert durable.columns == want.columns;
      assert durable.events == want.events;
    }

    method ResolveApproval(id: CardId, approved: bool, remember: bool, now: int) returns (live: bool)
      modifies this, durable
      ensures (Abs(), live) == Click(old(Abs()), id, approved, remember, now)
    {
      if id !in pending { return false; }
      var ask := pending[id].ask;
      if approved && remember && !ask.alwaysAsk {
        var remembered := if ask.session in sessionAutoApprove then sessionAutoApprove[ask.session] else {};
        sessionAutoApprove := sessionAutoApprove[ask.session := remembered + {ask.Cache()}];
      }
      if approved {
        suppressed := suppressed - {ask.Exact()};
        Settle(id, Approved(FromCard(id)));
      } else {
        suppressed := suppressed[ask.Exact() := Suppression(now, Declined)];
        Settle(id, Denied(Declined));
      }
      return true;
    }

    method OnTimer(id: CardId, now: int)
      modifies this, durable
      ensures Abs() == TimerFires(old(Abs()), id, now)
    {
      if id !in pending || now < pending[id].deadline { return; }
      suppressed := suppressed[pending[id].ask.Exact() := Suppression(now, TimedOut)];
      Settle(id, Denied(TimedOut));
    }

    lemma ColumnsOneMore(columns: map<string, Record>, pending: map<CardId, Card>, done: set<CardId>, id: CardId)
      requires done <= pending.Keys && id in pending && id !in done
      ensures var all := ColumnsAfter(columns, pending, done + {id});
              all == (if pending[id].ask.op.Some?
                      then ClearColumn(ColumnsAfter(columns, pending, done), pending[id].ask.op.value, id)
                      else ColumnsAfter(columns, pending, done))
    {
    }

    lemma EventsOneMore(pending: map<CardId, Card>, done: set<CardId>, id: CardId, reason: Reason)
      requires done <= pending.Keys && id in pending && id !in done
      ensures var before, after := SettleEvents(pending, done, reason), SettleEvents(pending, done + {id}, reason);
              multiset(after) == if pending[id].ask.op.Some?
                                 then multiset(before) + multiset{ResolvedEvent(id, pending[id].ask, false, Some(reason))}
                                 else multiset(before)
    {
      var before, after := SettleEvents(pending, done, reason), SettleEvents(pending, done + {id}, reason);
      if pending[id].ask.op.Some? {
        var e := ResolvedEvent(id, pending[id].ask, false, Some(reason));
        assert e !in before;
        assert after == before + {e};
      } else {
        assert after == before;
      }
    }

    lemma RemoveOneMore<K, V>(m: map<K, V>, gone: set<K>, k: K)
      ensures m - gone - {k} == m - (gone + {k})
    {
    }

    lemma UnionOneMore<K, V>(m: map<K, V>, small: map<K, V>, k: K, v: V)
      ensures (m + small)[k := v] == m + small[k := v]
    {
    }

    lemma MapsOneMore(c: Core, done: set<CardId>, id: CardId, outcome: Outcome)
      requires done <= c.pending.Keys && id in c.pending
      ensures OutcomesAfter(c.outcomes, done, outcome)[id := outcome] == OutcomesAfter(c.outcomes, done + {id}, outcome)
      ensures ReleasesAfter(c.releases, c.pending, done)[id := c.pending[id].ask.Exact()]
              == ReleasesAfter(c.releases, c.pending, done + {id})
    {
      var o := map i | i in done :: outcome;
      assert (map i | i in done + {id} :: outcome) == o[id := outcome];
      UnionOneMore(c.outcomes, o, id, outcome);
      var r := map i | i in done :: c.pending[i].ask.Exact();
      assert (map i | i in done + {id} :: c.pending[i].ask.Exact()) == r[id := c.pending[id].ask.Exact()];
      UnionOneMore(c.releases, r, id, c.pending[id].ask.Exact());
    }

    /** Settling one more card of a batch, whichever it is, extends the batch. */
    lemma SettleOneMore(c: Core, done: set<CardId>, id: CardId, reason: Reason)
      requires done <= c.pending.Keys && id in c.pending && id !in done
      ensures SettleAll(c, done, reason).pending == c.pending - done
      ensures SettleCard(SettleAll(c, done, reason), id, Denied(reason)) == SettleAll(c, done + {id}, reason)
    {
      hide SettleEvents, ColumnsAfter, OutcomesAfter, ReleasesAfter, ClearColumn;
      ColumnsOneMore(c.columns, c.pending, done, id);
      EventsOneMore(c.pending, done, id, reason);
      MapsOneMore(c, done, id, Denied(reason));
      RemoveOneMore(c.pending, done, id);
      assert multiset(done) + multiset{id} == multiset(done + {id});
    }

    /** Settling a card neither reads nor writes the suppression map. */
    lemma SettleIgnoresSuppression(c: Core, suppressed: map<ExactKey, Suppression>, id: CardId, outcome: Outcome)
      requires id in c.pending
      ensures SettleCard(c.(suppressed := suppressed), id, outcome) == SettleCard(c, id, outcome).(suppressed := suppressed)
    {
    }

    lemma SupersedeOneMore(c: Core, done: set<CardId>, id: CardId)
      requires done <= c.pending.Keys && id in c.pending && id !in done
      ensures var s := Supersede(c, done);
              s.pending == c.pending - done && id in s.pending &&
              SettleCard(s, id, Denied(Superseded)).(suppressed := s.suppressed - {c.pending[id].ask.Exact()})
              == Supersede(c, done + {id})
    {
      var key := c.pending[id].ask.Exact();
      SettleOneMore(c, done, id, Superseded);
      SettleIgnoresSuppression(SettleAll(c, done, Superseded), c.suppressed - KeysOf(c, done), id, Denied(Superseded));
      RemoveOneMore(c.suppressed, KeysOf(c, done), key);
      assert KeysOf(c, done + {id}) == KeysOf(c, done) + {key};
    }

    /** No batch at all leaves everything as it is. */
    lemma SettleNone(c: Core, reason: Reason)
      ensures SettleAll(c, {}, reason) == c
    {
      var s := SettleAll(c, {}, reason);
      assert s.pending == c.pending;
      assert ColumnsAfter(c.columns, c.pending, {}) == c.columns;
      assert s.outcomes == c.outcomes;
      assert s.releases == c.releases;
      assert SettleEvents(c.pending, {}, reason) == {};
      assert s.events == c.events;
    }

    lemma SupersedeNone(c: Core)
      ensures Supersede(c, {}) == c
    {
      SettleNone(c, Superseded);
      assert c.suppressed - KeysOf(c, {}) == c.suppressed;
    }

    method DismissByReply(id: CardId)
      requires id in pending
      modifies this, durable
      ensures var c := old(Abs());
              Abs() == SettleCard(c, id, Denied(Superseded)).(suppressed := c.suppressed - {c.pending[id].ask.Exact()})
      ensures pending == old(pending) - {id}
    {
      suppressed := suppressed - {pending[id].ask.Exact()};
      Settle(id, Denied(Superseded));
    }

    method DismissCards(session: string) returns (done: set<CardId>)
      modifies this, durable
      ensures done == CardsOf(old(Abs()), session) && Abs() == Supersede(old(Abs()), done)
    {
      hide Supersede, SettleCard, SettleAll;
      ghost var before := Abs();
      var todo := pending.Keys;
      done := {};
      SupersedeNone(before);
      while todo != {}
        invariant done == CardsOf(before, session) - todo && todo <= before.pending.Keys
        invariant pending == before.pending - done
        invariant Abs() == Supersede(before, done)
      {
        var id :| id in todo;
        todo := todo - {id};
        if pending[id].ask.session == session {
          SupersedeOneMore(before, done, id);
          DismissByReply(id);
          done := done + {id};
        }
      }
    }

    method DenyPendingForSession(session: string) returns (denied: nat)
      modifies this, durable
      ensures Abs() == DenyPending(old(Abs()), session)
      ensures denied == |CardsOf(old(Abs()), session)|
    {
      var dismissed := DismissCards(session);
      return |dismissed|;
    }

    method ClearSessionDeclines(session: string)
      modifies this`suppressed
      ensures Abs() == ClearDeclines(old(Abs()), session)
    {
      var todo := suppressed.Keys;
      while todo != {}
        invariant todo <= suppressed.Keys <= old(suppressed.Keys)
        invariant forall k :: k in suppressed ==> suppressed[k] == old(suppressed)[k]
        invariant forall k :: k in old(suppressed) && k !in todo ==> (k in suppressed <==> k.session != session)
      {
        var k :| k in todo;
        todo := todo - {k};
        if k.session == session {
          suppressed := suppressed - {k};
        }
      }
      assert suppressed == ClearDeclines(old(Abs()), session).suppressed;
    }

    method TearDownCards(session: string)
      modifies this, durable
      ensures Abs() == SettleAll(old(Abs()), CardsOf(old(Abs()), session), TimedOut)
    {
      hide SettleAll, SettleCard;
      ghost var before := Abs();
      var todo := pending.Keys;
      ghost var done: set<CardId> := {};
      SettleNone(before, TimedOut);
      while todo != {}
        invariant done == CardsOf(before, session) - todo && todo <= before.pending.Keys
        invariant pending == before.pending - done
        invariant Abs() == SettleAll(before, done, TimedOut)
      {
        var id :| id in todo;
        todo := todo - {id};
        if pending[id].ask.session == session {
          SettleOneMore(before, done, id, TimedOut);
          Settle(id, Denied(TimedOut));
          done := done + {id};
        }
      }
      assert done == CardsOf(before, session);
    }

    method ClearWholeSession(session: string)
      modifies this, durable
      ensures Abs() == ClearSession(old(Abs()), session)
    {
      sessionAutoApprove := sessionAutoApprove - {session};
      ClearSessionDeclines(session);
      TearDownCards(session);
    }

    /** opResolveApproval: the live card settles here; a dead one has its column annotated. */
    method OpResolveApproval(op: string, id: CardId, approved: bool, remember: bool, now: int) returns (r: OpResult)
      modifies this, durable
      ensures (Abs(), r) == OpResolve(old(Abs()), op, id, approved, remember, now)
    {
      var live := ResolveApproval(id, approved, remember, now);
      if live { return Delivered; }
      if op !in durable.columns || durable.columns[op].id != id { return UnknownApproval; }
      var record := durable.columns[op];
      durable.columns := durable.columns[op := record.(decision := Some(Decision(approved, now)))];
      durable.events := durable.events
        + multiset{Resolved(op, id, record.tool, approved, if approved then None else Some(Declined), true)};
      return Recorded;
    }

    /** resolveExpiredPendingApproval, for an op whose owner is gone. */
    method ResolveExpired(op: string, now: int)
      modifies durable
      ensures Abs() == Hygiene(old(Abs()), op, now)
    {
      if op !in durable.columns || now - durable.columns[op].requestedAt < APPROVAL_TIMEOUT_MS { return; }
      var record := durable.columns[op];
      if record.id in pending { return; }
      durable.columns := durable.columns - {op};
      durable.events := durable.events + multiset{Resolved(op, record.id, record.tool, false, Some(TimedOut), true)};
    }

    method ReleaseSlot(id: CardId)
      modifies this`inflight, this`releases
      ensures Abs() == Release(old(Abs()), id)
    {
      if id !in releases { return; }
      inflight := inflight - {releases[id]};
      releases := releases - {id};
    }
  }
}
