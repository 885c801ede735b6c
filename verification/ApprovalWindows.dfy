/**
 One deadline across crashes. As long as an op has one tool call in flight at a time,
 every card it shows for the same tool and arguments preview runs out when the first
 one would have, through any number of crashes and re-asks, until that window is closed.
 */
module ApprovalWindows {
  import opened Wrappers
  import opened ApprovalModel
  import opened ApprovalProtocol
  import opened ApprovalEffects
  import opened ApprovalInvariants
  import opened ApprovalTheorems

  /** When a resumed ask may put its card up, no other card of its op is still pending. */
  ghost predicate InTurn(s: State, act: Action) {
    act.BridgeSettles? && Resumable(s, act.a) ==>
      forall id :: id in s.core.pending ==> s.core.pending[id].ask.op != s.suspended[act.a].ask.op
  }

  /** The op's dispatcher runs one call at a time, at every step of the run. */
  ghost predicate Sequential(s: State, acts: seq<Action>)
    decreases |acts|
  {
    acts == [] || (Sequential(s, acts[..|acts| - 1]) && InTurn(Run(s, acts[..|acts| - 1]), acts[|acts| - 1]))
  }

  /** The op's column was not cleared after step `from`, up to and including `until`. */
  ghost predicate StaysOpen(h: History, op: string, from: nat, until: nat) {
    forall t :: (op, t) in h.closes ==> !(from < t <= until)
  }

  ghost predicate SameWindow(h: History, i: CardId, j: CardId)
    requires i in h.cards && j in h.cards
  {
    && h.cards[i].ask.tool == h.cards[j].ask.tool && h.cards[i].ask.Preview() == h.cards[j].ask.Preview()
    && h.cards[i].requestedAt == h.cards[j].requestedAt
  }

  ghost predicate OfOp(h: History, id: CardId, op: string) {
    Shadowed(h, id) && h.cards[id].ask.op == Some(op)
  }

  /** A window that was never closed is the one on the op's column. */
  ghost predicate Tracked(s: State) {
    forall id, op :: OfOp(s.hist, id, op) && StaysOpen(s.hist, op, s.hist.cards[id].step, s.step) ==>
      && op in s.core.columns && s.core.columns[op].requestedAt == s.hist.cards[id].requestedAt
      && SameAsk(s.core.columns[op], s.hist.cards[id].ask.tool, s.hist.cards[id].ask.Preview())
  }

  /** Two shadowed cards of one op share their window unless it was closed in between. */
  ghost predicate Shared(h: History) {
    forall i, j, op :: OfOp(h, i, op) && OfOp(h, j, op) && h.cards[i].step < h.cards[j].step ==>
      StaysOpen(h, op, h.cards[i].step, h.cards[j].step) ==> SameWindow(h, i, j)
  }

  /** A card's window had started, and had time left, when the card went up. */
  ghost predicate Live(h: History) {
    forall id :: id in h.cards ==> h.cards[id].requestedAt <= h.cards[id].at < h.cards[id].requestedAt + APPROVAL_TIMEOUT_MS
  }

  /** Every carried window is some earlier card's of the same op and ask. */
  ghost predicate Carried(h: History) {
    forall j :: j in h.cards && h.cards[j].requestedAt != h.cards[j].at ==>
      exists i, op :: OfOp(h, i, op) && OfOp(h, j, op) && h.cards[i].step < h.cards[j].step && SameWindow(h, i, j)
  }

  ghost predicate Windows(s: State) {
    Tracked(s) && Shared(s.hist) && Live(s.hist) && Carried(s.hist)
  }

  // ---- steps that put no shadowed card up ----

  /** Cards are the same but for unshadowed fresh ones; columns change only by closing, or in their verdict. */
  ghost predicate KeepsWindows(s: State, s': State) {
    && s'.step == s.step + 1
    && (forall id :: id in s.hist.cards ==> id in s'.hist.cards && s'.hist.cards[id] == s.hist.cards[id])
    && (forall id :: id in s'.hist.cards && id !in s.hist.cards ==>
          !s'.hist.cards[id].shadowed && s'.hist.cards[id].requestedAt == s'.hist.cards[id].at)
    && (forall op, t :: (op, t) in s.hist.closes ==> (op, t) in s'.hist.closes)
    && (forall op, t :: (op, t) in s'.hist.closes ==> (op, t) in s.hist.closes || t == s.step)
    && (forall op :: op in s.core.columns ==>
          if op in s'.core.columns
          then s'.core.columns[op] == s.core.columns[op].(decision := s'.core.columns[op].decision)
          else (op, s.step) in s'.hist.closes)
  }

  lemma TrackedKept(s: State, s': State)
    requires Tracked(s) && Steps(s) && KeepsWindows(s, s')
    ensures Tracked(s')
  {
    forall id, op | OfOp(s'.hist, id, op) && StaysOpen(s'.hist, op, s'.hist.cards[id].step, s'.step)
      ensures op in s'.core.columns && s'.core.columns[op].requestedAt == s'.hist.cards[id].requestedAt
      ensures SameAsk(s'.core.columns[op], s'.hist.cards[id].ask.tool, s'.hist.cards[id].ask.Preview())
    {
      assert OfOp(s.hist, id, op);
      assert StaysOpen(s.hist, op, s.hist.cards[id].step, s.step);
      assert (op, s.step) !in s'.hist.closes;
    }
  }

  lemma SharedKept(s: State, s': State)
    requires Shared(s.hist) && Steps(s) && KeepsWindows(s, s')
    ensures Shared(s'.hist)
  {
    forall i, j, op | OfOp(s'.hist, i, op) && OfOp(s'.hist, j, op) && s'.hist.cards[i].step < s'.hist.cards[j].step
                      && StaysOpen(s'.hist, op, s'.hist.cards[i].step, s'.hist.cards[j].step)
      ensures SameWindow(s'.hist, i, j)
    {
      assert OfOp(s.hist, i, op) && OfOp(s.hist, j, op);
      assert StaysOpen(s.hist, op, s.hist.cards[i].step, s.hist.cards[j].step);
      assert SameWindow(s.hist, i, j);
    }
  }

  lemma CarriedKept(s: State, s': State)
    requires Carried(s.hist) && Live(s.hist) && KeepsWindows(s, s')
    ensures Carried(s'.hist) && Live(s'.hist)
  {
    forall j | j in s'.hist.cards && s'.hist.cards[j].requestedAt != s'.hist.cards[j].at
      ensures exists i, op :: OfOp(s'.hist, i, op) && OfOp(s'.hist, j, op)
                              && s'.hist.cards[i].step < s'.hist.cards[j].step && SameWindow(s'.hist, i, j)
    {
      var i, op :| OfOp(s.hist, i, op) && OfOp(s.hist, j, op) && s.hist.cards[i].step < s.hist.cards[j].step && SameWindow(s.hist, i, j);
      assert OfOp(s'.hist, i, op) && OfOp(s'.hist, j, op) && SameWindow(s'.hist, i, j);
    }
  }

  lemma WindowsKept(s: State, s': State)
    requires Windows(s) && Steps(s) && KeepsWindows(s, s')
    ensures Windows(s')
  {
    hide Tracked, Shared, Live, Carried, Steps, KeepsWindows;
    TrackedKept(s, s');
    SharedKept(s, s');
    CarriedKept(s, s');
  }

  // ---- a shadowed card goes up ----

  /** The new card continues the window of every card of its op whose window is still open. */
  ghost predicate Continues(s: State, s': State, id: CardId, op: string) {
    && s'.step == s.step + 1 && id !in s.hist.cards && OfOp(s'.hist, id, op)
    && s'.hist.cards == s.hist.cards[id := s'.hist.cards[id]] && s'.hist.cards[id].step == s.step
    && (forall p, t :: (p, t) in s.hist.closes ==> (p, t) in s'.hist.closes)
    && (forall p, t :: (p, t) in s'.hist.closes ==> (p, t) in s.hist.closes || t == s.step)
    && op in s'.core.columns && s'.core.columns[op].requestedAt == s'.hist.cards[id].requestedAt
    && SameAsk(s'.core.columns[op], s'.hist.cards[id].ask.tool, s'.hist.cards[id].ask.Preview())
    && (forall p :: p in s.core.columns && p != op ==> p in s'.core.columns && s'.core.columns[p] == s.core.columns[p])
    && (op in s.core.columns ==>
          || (op, s.step) in s'.hist.closes
          || (s'.core.columns[op].requestedAt == s.core.columns[op].requestedAt
              && SameAsk(s.core.columns[op], s'.hist.cards[id].ask.tool, s'.hist.cards[id].ask.Preview())))
  }

  lemma TrackedUp(s: State, s': State, id: CardId, op: string)
    requires Tracked(s) && Steps(s) && Continues(s, s', id, op)
    ensures Tracked(s')
  {
    forall i, p | OfOp(s'.hist, i, p) && StaysOpen(s'.hist, p, s'.hist.cards[i].step, s'.step)
      ensures p in s'.core.columns && s'.core.columns[p].requestedAt == s'.hist.cards[i].requestedAt
      ensures SameAsk(s'.core.columns[p], s'.hist.cards[i].ask.tool, s'.hist.cards[i].ask.Preview())
    {
      if i != id {
        assert OfOp(s.hist, i, p);
        assert StaysOpen(s.hist, p, s.hist.cards[i].step, s.step);
        assert (p, s.step) !in s'.hist.closes;
      }
    }
  }

  lemma SharedUp(s: State, s': State, id: CardId, op: string)
    requires Tracked(s) && Shared(s.hist) && Steps(s) && Continues(s, s', id, op)
    ensures Shared(s'.hist)
  {
    forall i, j, p | OfOp(s'.hist, i, p) && OfOp(s'.hist, j, p) && s'.hist.cards[i].step < s'.hist.cards[j].step
                     && StaysOpen(s'.hist, p, s'.hist.cards[i].step, s'.hist.cards[j].step)
      ensures SameWindow(s'.hist, i, j)
    {
      assert OfOp(s.hist, i, p);
      if j == id {
        assert StaysOpen(s.hist, p, s.hist.cards[i].step, s.step);
        assert (p, s.step) !in s'.hist.closes;
      } else {
        assert OfOp(s.hist, j, p);
        assert StaysOpen(s.hist, p, s.hist.cards[i].step, s.hist.cards[j].step);
        assert SameWindow(s.hist, i, j);
      }
    }
  }

  lemma CarriedUp(s: State, s': State, id: CardId, op: string)
    requires Carried(s.hist) && Live(s.hist) && Columns(s) && Steps(s) && Continues(s, s', id, op)
    requires s'.hist.cards[id].at == s.now
    requires s'.hist.cards[id].requestedAt == s.now
             || (op in s.core.columns && s'.hist.cards[id].requestedAt == s.core.columns[op].requestedAt
                 && !Expired(s.core.columns[op], s.now)
                 && SameAsk(s.core.columns[op], s'.hist.cards[id].ask.tool, s'.hist.cards[id].ask.Preview()))
    ensures Carried(s'.hist) && Live(s'.hist)
  {
    if op in s.core.columns {
      assert ColumnFits(s.hist, op, s.core.columns[op]);
    }
    forall j | j in s'.hist.cards && s'.hist.cards[j].requestedAt != s'.hist.cards[j].at
      ensures exists i, p :: OfOp(s'.hist, i, p) && OfOp(s'.hist, j, p)
                             && s'.hist.cards[i].step < s'.hist.cards[j].step && SameWindow(s'.hist, i, j)
    {
      if j == id {
        var i := s.core.columns[op].id;
        assert OfOp(s'.hist, i, op) && SameWindow(s'.hist, i, j);
      } else {
        var i, p :| OfOp(s.hist, i, p) && OfOp(s.hist, j, p) && s.hist.cards[i].step < s.hist.cards[j].step && SameWindow(s.hist, i, j);
        assert OfOp(s'.hist, i, p) && OfOp(s'.hist, j, p) && SameWindow(s'.hist, i, j);
      }
    }
  }

  // ---- every action, one call at a time ----

  lemma AskKeepsWindows(s: State, s': State, a: AskId, ask: Ask, r: Step)
    requires CardIds(s) && AskEffect(s, s', a, ask, r)
    ensures KeepsWindows(s, s')
  {
    AskGrows(s, s', a, ask, r);
  }

  lemma QuietKeepsWindows(s: State, s': State, act: Action)
    requires QuietEffect(s, s', act)
    ensures KeepsWindows(s, s')
  {
    hide QuietGrantsEffect, QuietSlotsEffect;
  }

  lemma CrashKeepsWindows(s: State, s': State)
    requires CrashEffect(s, s')
    ensures KeepsWindows(s, s')
  {
  }

  lemma SettlingKeepsWindows(s: State, s': State, ids: set<CardId>, how: How, outcome: Outcome)
    requires SettledBy(s, s', ids, how, outcome)
    ensures KeepsWindows(s, s')
  {
    forall op | op in s.core.columns && op !in s'.core.columns
      ensures (op, s.step) in s'.hist.closes
    {
      assert (op, s.step) in Closing(s.core, s'.core, s.step);
    }
  }

  /** A resumed ask that shows no shadowed card: it found a verdict, or the bridge is still not there. */
  lemma UnshadowedResume(s: State, s': State, a: AskId, loads: bool)
    requires Resumable(s, a) && CardIds(s)
    requires ResumeEffect(s, s', a, s.suspended[a].ask, s.suspended[a].id, loads)
    requires Find(s.core, s.suspended[a].ask, loads, s.now).Verdict? || !s'.core.bridge
    ensures KeepsWindows(s, s')
  {
  }

  lemma ContinuesCarried(s: State, s': State, a: AskId, loads: bool)
    requires Resumable(s, a) && CardIds(s) && Columns(s) && Cards(s) && InTurn(s, BridgeSettles(a, loads))
    requires ResumeEffect(s, s', a, s.suspended[a].ask, s.suspended[a].id, loads)
    requires Find(s.core, s.suspended[a].ask, loads, s.now).Window? && s'.core.bridge
    ensures Continues(s, s', s.suspended[a].id, s.suspended[a].ask.op.value)
  {
    var op := s.suspended[a].ask.op.value;
    if op in s.core.columns {
      assert ColumnFits(s.hist, op, s.core.columns[op]);
      assert s.core.columns[op].id !in s.core.pending;
    }
  }

  lemma ContinuesStale(s: State, s': State, a: AskId, loads: bool)
    requires Resumable(s, a) && CardIds(s) && Columns(s) && Cards(s) && InTurn(s, BridgeSettles(a, loads))
    requires ResumeEffect(s, s', a, s.suspended[a].ask, s.suspended[a].id, loads)
    requires Find(s.core, s.suspended[a].ask, loads, s.now).Stale? && s'.core.bridge
    ensures Continues(s, s', s.suspended[a].id, s.suspended[a].ask.op.value)
  {
    var op := s.suspended[a].ask.op.value;
    if op in s.core.columns {
      assert ColumnFits(s.hist, op, s.core.columns[op]);
      assert s.core.columns[op].id !in s.core.pending;
    }
  }

  lemma ContinuesFresh(s: State, s': State, a: AskId, loads: bool)
    requires Resumable(s, a) && CardIds(s) && Columns(s) && Cards(s) && InTurn(s, BridgeSettles(a, loads))
    requires ResumeEffect(s, s', a, s.suspended[a].ask, s.suspended[a].id, loads)
    requires Find(s.core, s.suspended[a].ask, loads, s.now).Nothing? && s'.core.bridge
    ensures Continues(s, s', s.suspended[a].id, s.suspended[a].ask.op.value)
  {
  }

  lemma ResumeContinues(s: State, s': State, a: AskId, loads: bool)
    requires Resumable(s, a) && CardIds(s) && Columns(s) && Cards(s) && InTurn(s, BridgeSettles(a, loads))
    requires ResumeEffect(s, s', a, s.suspended[a].ask, s.suspended[a].id, loads)
    requires !Find(s.core, s.suspended[a].ask, loads, s.now).Verdict? && s'.core.bridge
    ensures Continues(s, s', s.suspended[a].id, s.suspended[a].ask.op.value)
  {
    hide CardIds, Columns, Cards, InTurn, ResumeEffect, Find, Continues;
    match Find(s.core, s.suspended[a].ask, loads, s.now)
    case Window(_) => ContinuesCarried(s, s', a, loads);
    case Stale(_) => ContinuesStale(s, s', a, loads);
    case Nothing => ContinuesFresh(s, s', a, loads);
  }

  lemma ResumeStarts(s: State, s': State, a: AskId, loads: bool)
    requires Resumable(s, a) && CardIds(s) && Columns(s) && Cards(s) && InTurn(s, BridgeSettles(a, loads))
    requires ResumeEffect(s, s', a, s.suspended[a].ask, s.suspended[a].id, loads)
    requires !Find(s.core, s.suspended[a].ask, loads, s.now).Verdict? && s'.core.bridge
    ensures var id, op := s.suspended[a].id, s.suspended[a].ask.op.value;
            && s'.hist.cards[id].at == s.now
            && (s'.hist.cards[id].requestedAt == s.now
                || (op in s.core.columns && s'.hist.cards[id].requestedAt == s.core.columns[op].requestedAt
                    && !Expired(s.core.columns[op], s.now)
                    && SameAsk(s.core.columns[op], s'.hist.cards[id].ask.tool, s'.hist.cards[id].ask.Preview())))
  {
    var op := s.suspended[a].ask.op.value;
    if op in s.core.columns {
      assert ColumnFits(s.hist, op, s.core.columns[op]);
      assert s.core.columns[op].id !in s.core.pending;
    }
  }

  lemma WindowsUp(s: State, s': State, a: AskId, loads: bool)
    requires Windows(s) && Steps(s) && Resumable(s, a) && CardIds(s) && Columns(s) && Cards(s) && InTurn(s, BridgeSettles(a, loads))
    requires ResumeEffect(s, s', a, s.suspended[a].ask, s.suspended[a].id, loads)
    requires !Find(s.core, s.suspended[a].ask, loads, s.now).Verdict? && s'.core.bridge
    ensures Windows(s')
  {
    hide Tracked, Shared, Live, Carried, Steps, CardIds, Columns, Cards, InTurn, ResumeEffect, Find, Continues;
    var id, op := s.suspended[a].id, s.suspended[a].ask.op.value;
    ResumeContinues(s, s', a, loads);
    ResumeStarts(s, s', a, loads);
    TrackedUp(s, s', id, op);
    SharedUp(s, s', id, op);
    CarriedUp(s, s', id, op);
  }

  lemma WindowsStep(s: State, act: Action)
    requires Invariant(s) && Windows(s) && InTurn(s, act)
    ensures Windows(Next(s, act))
  {
    hide Next, Windows, Steps, CardIds, Columns, Cards, AskIds, Marks, Promises, Grants, Memory, Mutes, Verdicts, Answers,
         Events, Coalesced, KeepsWindows, SettledBy, QuietEffect, ResumeEffect, AskEffect, Find, AskStep;
    var s' := Next(s, act);
    if (act.StartAsk? && act.a in s.hist.asked) || (act.BridgeSettles? && !Resumable(s, act.a)) {
      Ignored(s, act);
      QuietTick(s, 0);
      QuietKeepsWindows(s, s', Tick(0));
      WindowsKept(s, s');
    } else if act.StartAsk? {
      var r := AskEffects(s, act.a, act.ask);
      AskKeepsWindows(s, s', act.a, act.ask, r);
      WindowsKept(s, s');
    } else if act.BridgeSettles? {
      ResumeEffects(s, act.a, act.loads);
      if Find(s.core, s.suspended[act.a].ask, act.loads, s.now).Verdict? || !s'.core.bridge {
        UnshadowedResume(s, s', act.a, act.loads);
        WindowsKept(s, s');
      } else {
        WindowsUp(s, s', act.a, act.loads);
      }
    } else if act.Crash? {
      CrashEffects(s, act);
      CrashKeepsWindows(s, s');
      WindowsKept(s, s');
    } else if Quiet(s, act) {
      QuietEffects(s, act);
      QuietKeepsWindows(s, s', act);
      WindowsKept(s, s');
    } else {
      var ids, how, outcome := Settlers(s, act);
      SettlingKeepsWindows(s, s', ids, how, outcome);
      WindowsKept(s, s');
    }
  }

  lemma {:induction false} WindowsOnRuns(now: int, acts: seq<Action>)
    requires Sequential(Initial(now), acts)
    ensures Windows(After(now, acts))
    decreases |acts|
  {
    if acts == [] {
    } else {
      hide Next, Windows, Invariant;
      var before := acts[..|acts| - 1];
      WindowsOnRuns(now, before);
      Reachable(now, before);
      WindowsStep(After(now, before), acts[|acts| - 1]);
    }
  }

  /**
   One deadline: two shadowed cards of one op show the same ask and the same expiry, whatever
   crashes lie between them, as long as the op's window was not closed in between.
   */
  lemma OneDeadlineAcrossCrashes(now: int, acts: seq<Action>, i: CardId, j: CardId, op: string)
    requires Sequential(Initial(now), acts)
    ensures var h := After(now, acts).hist;
            OfOp(h, i, op) && OfOp(h, j, op) && h.cards[i].step < h.cards[j].step ==>
              StaysOpen(h, op, h.cards[i].step, h.cards[j].step) ==> SameWindow(h, i, j)
  {
    WindowsOnRuns(now, acts);
    hide Run;
  }

  /**
   The window a card shows is its own or an earlier card's of the same op and ask, it is never
   over when the card goes up, and the card's timer is set for exactly the window's end.
   */
  lemma WindowsAreHonest(now: int, acts: seq<Action>, id: CardId)
    requires Sequential(Initial(now), acts)
    ensures var s := After(now, acts);
            id in s.hist.cards ==>
              && s.hist.cards[id].requestedAt <= s.hist.cards[id].at < s.hist.cards[id].requestedAt + APPROVAL_TIMEOUT_MS
              && (s.hist.cards[id].requestedAt == s.hist.cards[id].at
                  || exists i, op :: OfOp(s.hist, i, op) && OfOp(s.hist, id, op)
                                     && s.hist.cards[i].step < s.hist.cards[id].step && SameWindow(s.hist, i, id))
              && (id in s.core.pending ==>
                    s.core.pending[id].deadline == s.hist.cards[id].requestedAt + APPROVAL_TIMEOUT_MS)
  {
    WindowsOnRuns(now, acts);
    Reachable(now, acts);
    hide Run;
  }

  /** In any run, sequential or not, a recorded decision is applied to at most one ask, a repeat of its own in time. */
  lemma VerdictsApplyOnce(now: int, acts: seq<Action>, id: CardId, a: AskId, b: AskId)
    ensures var h := After(now, acts).hist;
            && h.applied[id] <= 1
            && (a in h.answers && h.answers[a].why == ByRecord(id) ==>
                  && (exists yes :: VerdictApplied(h, a, id, yes, h.answers[a].at))
                  && (b in h.answers && h.answers[b].why == ByRecord(id) ==> a == b))
  {
    Reachable(now, acts);
    OnRecord(After(now, acts), a);
    OnRecord(After(now, acts), b);
    hide Run;
  }
}
