/**
 What an op-scoped ask comes back to after its await, told from the op's column and the card it shadows.
 */
module ApprovalResume {
  import opened Wrappers
  import opened ApprovalModel
  import opened ApprovalKeys
  import opened ApprovalProtocol
  import opened ApprovalEffects
  import opened ApprovalInvariants
  import opened ApprovalTheorems

  /** The op's column holds a record of no live card, and the bridge to it is there. */
  predicate HasColumn(c: Core, op: string, loads: bool) {
    (c.bridge || loads) && op in c.columns && c.columns[op].id !in c.pending
  }

  /** The record is of the same tool and arguments' text as far as it shows, and less than five minutes old. */
  ghost predicate Repeats(s: State, r: Record, ask: Ask) {
    && r.tool == ask.tool && r.id in s.hist.cards && SameStart(s.hist.cards[r.id].ask.text, ask.text)
    && s.now - r.requestedAt < 300000
  }

  /** When the window of the card that goes up began. */
  ghost function WindowOf(s: State, ask: Ask, loads: bool): int
    requires ask.op.Some?
  {
    if HasColumn(s.core, ask.op.value, loads) && Repeats(s, s.core.columns[ask.op.value], ask)
    then s.core.columns[ask.op.value].requestedAt else s.now
  }

  lemma FindMeans(s: State, ask: Ask, loads: bool)
    requires Invariant(s) && ask.op.Some?
    ensures var op := ask.op.value; var f := Find(s.core, ask, loads, s.now);
            if !HasColumn(s.core, op, loads) then f == Nothing
            else
              var r := s.core.columns[op];
              if !Repeats(s, r, ask) then f == Stale(r)
              else if r.decision.Some? then f == Verdict(r) else f == Window(r)
  {
    var op := ask.op.value;
    if op in s.core.columns {
      ColumnIsShadow(s, op);
      PreviewsAgree(s.hist.cards[s.core.columns[op].id].ask, ask);
    }
    hide Invariant;
  }

  /** A card goes up for the ask, its window and timer as told, and is shadowed if the bridge is there. */
  ghost predicate Shows(s: State, s': State, a: AskId, ask: Ask, id: CardId, window: int, loads: bool)
    requires ask.op.Some?
  {
    && id in s'.core.pending && s'.core.pending[id].ask == ask
    && s'.core.pending[id].deadline == s.now + (if window + 300000 - s.now > 1 then window + 300000 - s.now else 1)
    && (forall i :: i != id ==> (i in s'.core.pending <==> i in s.core.pending)
                                && (i in s.core.pending ==> s'.core.pending[i] == s.core.pending[i]))
    && a in s'.hist.riding && s'.hist.riding[a] == id
    && (if s.core.bridge || loads
        then ask.op.value in s'.core.columns && Shadows(s'.core.columns[ask.op.value], id, ask, window)
        else s'.core.columns == s.core.columns)
    && forall op :: op != ask.op.value ==> (op in s'.core.columns <==> op in s.core.columns)
                                           && (op in s.core.columns ==> s'.core.columns[op] == s.core.columns[op])
  }

  predicate Shadows(r: Record, id: CardId, ask: Ask, window: int) {
    && r.id == id && r.tool == ask.tool && r.requestedAt == window && r.decision.None?
    && |r.preview| <= 500 && |r.preview| <= |ask.text| && r.preview == ask.text[..|r.preview|] && (|r.preview| < 500 ==> r.preview == ask.text)
  }

  /** What the log gains: the old record's end, if it is not carried on, and the new card's request. */
  ghost function LogGains(s: State, ask: Ask, id: CardId, loads: bool): multiset<DurableEvent>
    requires ask.op.Some?
  {
    var op := ask.op.value;
    (if HasColumn(s.core, op, loads) && !Repeats(s, s.core.columns[op], ask) then
       var r := s.core.columns[op];
       multiset{Resolved(op, r.id, r.tool, false, Some(if s.now - r.requestedAt >= 300000 then TimedOut else Superseded), true)}
     else multiset{})
    + (if s.core.bridge || loads then multiset{Requested(op, id, ask.tool)} else multiset{})
  }

  /**
   The second stretch of an op's ask, in any reachable state. A recorded decision on a repeat of it is the answer, once: the
   column goes, and the log gains nothing. Otherwise its card goes up: under the window the column still shows for a repeat
   of it, else under its own, and then the record in the column has ended, by expiry or by being superseded.
   */
  lemma ResumeGets(now: int, acts: seq<Action>, a: AskId, loads: bool)
    requires a in After(now, acts).suspended
    ensures var s := After(now, acts);
            var ask, id, s' := s.suspended[a].ask, s.suspended[a].id, Next(s, BridgeSettles(a, loads));
            && ask.op.Some?
            && if HasVerdict(s, ask, loads) then
                 var r := s.core.columns[ask.op.value];
                 && a in s'.hist.answers && s'.hist.answers[a].why == ByRecord(r.id)
                 && s'.hist.answers[a].outcome == (if r.decision.value.approved then Approved(NoGrant) else Denied(Declined))
                 && s'.core.pending == s.core.pending && s'.core.columns == s.core.columns - {ask.op.value}
                 && s'.core.events == s.core.events
               else
                 && Shows(s, s', a, ask, id, WindowOf(s, ask, loads), loads)
                 && s'.core.events == s.core.events + LogGains(s, ask, id, loads)
  {
    Reachable(now, acts);
    var s := After(now, acts);
    hide Run, Next, Invariant, HasVerdict, Shows, WindowOf, LogGains;
    SuspendedWasAsked(s, a);
    VerdictIsFound(s, s.suspended[a].ask, loads);
    hide Find;
    if HasVerdict(s, s.suspended[a].ask, loads) {
      VerdictAnswers(s, a, loads);
    } else {
      OthersShow(s, a, loads);
    }
  }

  lemma VerdictAnswers(s: State, a: AskId, loads: bool)
    requires Invariant(s) && Resumable(s, a) && Find(s.core, s.suspended[a].ask, loads, s.now).Verdict?
    ensures var ask, s' := s.suspended[a].ask, Next(s, BridgeSettles(a, loads));
            && ask.op.value in s.core.columns
            && var r := s.core.columns[ask.op.value];
               && r.decision.Some? && a in s'.hist.answers && s'.hist.answers[a].why == ByRecord(r.id)
               && s'.hist.answers[a].outcome == (if r.decision.value.approved then Approved(NoGrant) else Denied(Declined))
               && s'.core.pending == s.core.pending && s'.core.columns == s.core.columns - {ask.op.value}
               && s'.core.events == s.core.events
  {
    VerdictInColumn(s.core, s.suspended[a].ask, loads, s.now);
    hide Next, Invariant, Find, ResumeFrame;
    ResumeEffects(s, a, loads);
  }

  lemma VerdictInColumn(c: Core, ask: Ask, loads: bool, now: int)
    requires ask.op.Some? && Find(c, ask, loads, now).Verdict?
    ensures ask.op.value in c.columns && Find(c, ask, loads, now) == Verdict(c.columns[ask.op.value])
    ensures c.columns[ask.op.value].decision.Some?
  {
  }

  lemma OthersShow(s: State, a: AskId, loads: bool)
    requires Invariant(s) && Resumable(s, a) && !Find(s.core, s.suspended[a].ask, loads, s.now).Verdict?
    ensures var ask, id, s' := s.suspended[a].ask, s.suspended[a].id, Next(s, BridgeSettles(a, loads));
            && Shows(s, s', a, ask, id, WindowOf(s, ask, loads), loads)
            && s'.core.events == s.core.events + LogGains(s, ask, id, loads)
  {
    FindMeans(s, s.suspended[a].ask, loads);
    hide Next, Invariant, Find, ResumeEffect, Repeats, Shows, WindowOf, LogGains;
    ResumeEffects(s, a, loads);
    EffectShows(s, Next(s, BridgeSettles(a, loads)), a, s.suspended[a].ask, s.suspended[a].id, loads);
  }

  lemma PreviewShadows(id: CardId, ask: Ask, window: int)
    ensures Shadows(Record(id, ask.tool, ask.Preview(), window, None), id, ask, window)
  {
    assert ask.text[..|ask.text|] == ask.text;
  }

  lemma OpensShows(s: State, s': State, a: AskId, ask: Ask, id: CardId, at: int, loads: bool)
    requires ask.op.Some? && ResumeOpens(s, s', a, ask, id, at) && ResumeFrame(s, s', a, loads)
    ensures Shows(s, s', a, ask, id, at, loads)
  {
    PreviewShadows(id, ask, at);
    hide Shadows;
  }

  lemma EffectShows(s: State, s': State, a: AskId, ask: Ask, id: CardId, loads: bool)
    requires ask.op.Some? && ResumeEffect(s, s', a, ask, id, loads) && !Find(s.core, ask, loads, s.now).Verdict?
    requires var op := ask.op.value; var f := Find(s.core, ask, loads, s.now);
             if !HasColumn(s.core, op, loads) then f == Nothing
             else if !Repeats(s, s.core.columns[op], ask) then f == Stale(s.core.columns[op])
             else f == Window(s.core.columns[op])
    ensures Shows(s, s', a, ask, id, WindowOf(s, ask, loads), loads)
    ensures s'.core.events == s.core.events + LogGains(s, ask, id, loads)
  {
    hide Find, Repeats, ResumeOpens, Shows;
    OpensShows(s, s', a, ask, id, WindowOf(s, ask, loads), loads);
    assert s'.core.bridge == (s.core.bridge || loads);
  }
}
