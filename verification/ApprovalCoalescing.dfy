/**
 How many cards one exact call can have up at a time: which steps put up a second one, exactly.
 */
module ApprovalCoalescing {
  import opened Wrappers
  import opened ApprovalModel
  import opened ApprovalKeys
  import opened ApprovalProtocol
  import opened ApprovalEffects
  import opened ApprovalInvariants
  import opened ApprovalTheorems

  predicate IsUp(s: State, id: CardId, call: Ask) { id in s.core.pending && SameCall(s.core.pending[id].ask, call) }

  ghost predicate SomeUp(s: State, call: Ask) { exists id :: IsUp(s, id, call) }

  ghost predicate AtMostOne(s: State, call: Ask) { forall i, j :: IsUp(s, i, call) && IsUp(s, j, call) ==> i == j }

  /** A plain ask that no grant, memory or suppression answers and no slot takes in. */
  ghost predicate AsksAnew(s: State, act: Action, call: Ask) {
    && act.StartAsk? && act.a !in s.hist.asked && act.ask.op.None? && SameCall(act.ask, call)
    && !HasGrant(s.core, act.ask) && !HasMemory(s.core, act.ask) && !HasMute(s.core, act.ask, s.now) && !HasSlot(s.core, act.ask)
  }

  /** An op-scoped ask that comes back from its await with no recorded verdict. */
  ghost predicate ResumesUnanswered(s: State, act: Action, call: Ask) {
    && act.BridgeSettles? && Resumable(s, act.a) && SameCall(s.suspended[act.a].ask, call)
    && !HasVerdict(s, s.suspended[act.a].ask, act.loads)
  }

  /** The only two ways to put up a card. */
  ghost predicate PutsUp(s: State, act: Action, call: Ask) { AsksAnew(s, act, call) || ResumesUnanswered(s, act, call) }

  /** The card that goes up is a new one, and the others stay. */
  ghost predicate OneMore(s: State, s': State, call: Ask) {
    exists id :: !IsUp(s, id, call) && forall i :: IsUp(s', i, call) <==> IsUp(s, i, call) || i == id
  }

  ghost predicate NoMore(s: State, s': State, call: Ask) { forall i :: IsUp(s', i, call) ==> IsUp(s, i, call) }

  lemma CardGoesUp(s: State, s': State, id: CardId, card: Card, call: Ask)
    requires id !in s.core.pending && s'.core.pending == s.core.pending[id := card]
    ensures if SameCall(card.ask, call) then OneMore(s, s', call) else NoMore(s, s', call)
  {
    if SameCall(card.ask, call) {
      assert !IsUp(s, id, call);
    }
  }

  lemma AskPutsUp(s: State, act: Action, call: Ask)
    requires Invariant(s) && act.StartAsk? && act.a !in s.hist.asked
    ensures if PutsUp(s, act, call) then OneMore(s, Next(s, act), call) else NoMore(s, Next(s, act), call)
  {
    hide Next, Invariant, AskFrame, SameTakes;
    IdsAreNew(s);
    var s' := Next(s, act);
    var r := AskEffects(s, act.a, act.ask);
    AskGets(s.core, act.ask, s.now);
    hide AskStep, HasGrant, HasMemory, HasMute, HasSlot, SameCall;
    if r.Opens? {
      CardGoesUp(s, s', r.id, Card(act.ask, Deadline(r.requestedAt, s.now)), call);
    } else {
      assert s'.core.pending == s.core.pending;
    }
  }

  lemma ResumePutsUp(s: State, act: Action, call: Ask)
    requires Invariant(s) && act.BridgeSettles? && Resumable(s, act.a)
    ensures if PutsUp(s, act, call) then OneMore(s, Next(s, act), call) else NoMore(s, Next(s, act), call)
  {
    hide Next, Invariant, ResumeEffect, ResumeFrame, Find, SameTakes;
    IdsAreNew(s);
    var s' := Next(s, act);
    var ask, id := s.suspended[act.a].ask, s.suspended[act.a].id;
    VerdictIsFound(s, ask, act.loads);
    hide HasVerdict, SameCall;
    ResumeEffects(s, act.a, act.loads);
    var up, at, answer := ResumeOutlined(s, s', act.a, ask, id, act.loads);
    if up {
      CardGoesUp(s, s', id, Card(ask, Deadline(at, s.now)), call);
    }
  }

  lemma OthersPutUpNothing(s: State, act: Action, call: Ask)
    requires !act.StartAsk? && !act.BridgeSettles?
    ensures !PutsUp(s, act, call) && NoMore(s, Next(s, act), call)
  {
    hide Next, Quiet, QuietGrantsEffect, QuietSlotsEffect, QuietColumnsEffect;
    if Quiet(s, act) {
      QuietEffects(s, act);
    } else if act.Crash? {
      CrashEffects(s, act);
    } else {
      var ids, how, outcome := Settlers(s, act);
    }
  }

  lemma IgnoredPutsUpNothing(s: State, act: Action, call: Ask)
    requires (act.StartAsk? && act.a in s.hist.asked) || (act.BridgeSettles? && !Resumable(s, act.a))
    ensures !PutsUp(s, act, call) && NoMore(s, Next(s, act), call)
  {
    Ignored(s, act);
    OthersPutUpNothing(s, Tick(0), call);
    hide Next;
  }

  lemma StepPutsUp(s: State, act: Action, call: Ask)
    requires Invariant(s)
    ensures if PutsUp(s, act, call) then OneMore(s, Next(s, act), call) else NoMore(s, Next(s, act), call)
  {
    hide Next, Invariant, PutsUp, OneMore, NoMore;
    if act.StartAsk? && act.a !in s.hist.asked {
      AskPutsUp(s, act, call);
    } else if act.BridgeSettles? && Resumable(s, act.a) {
      ResumePutsUp(s, act, call);
    } else if act.StartAsk? || act.BridgeSettles? {
      IgnoredPutsUpNothing(s, act, call);
    } else {
      OthersPutUpNothing(s, act, call);
    }
  }

  lemma CountingUp(s: State, s': State, call: Ask, puts: bool)
    requires AtMostOne(s, call) && (if puts then OneMore(s, s', call) else NoMore(s, s', call))
    ensures AtMostOne(s', call) <==> !(puts && SomeUp(s, call))
  {
    hide IsUp;
    if puts {
      var id :| !IsUp(s, id, call) && forall i :: IsUp(s', i, call) <==> IsUp(s, i, call) || i == id;
      if i :| IsUp(s, i, call) {
        assert IsUp(s', i, call) && IsUp(s', id, call) && i != id;
      }
    }
  }

  /**
   In a reachable state where a call has at most one card up, a step leaves it with two exactly when one is up and the step
   either asks for the call again, plainly, and finds no grant, memory or suppression to answer it and no slot for it,
   or resumes an op-scoped ask of it that no recorded verdict answers.
   */
  lemma SecondCardExactly(now: int, acts: seq<Action>, act: Action, call: Ask)
    requires AtMostOne(After(now, acts), call)
    ensures AtMostOne(Next(After(now, acts), act), call) <==> !(PutsUp(After(now, acts), act, call) && SomeUp(After(now, acts), call))
  {
    hide Next, Invariant, PutsUp, OneMore, NoMore, AtMostOne, SomeUp, Run;
    Reachable(now, acts);
    var s := After(now, acts);
    StepPutsUp(s, act, call);
    CountingUp(s, Next(s, act), call, PutsUp(s, act, call));
  }

  ghost predicate AddsSecond(now: int, acts: seq<Action>, i: nat, call: Ask)
    requires i < |acts|
  {
    PutsUp(After(now, acts[..i]), acts[i], call) && SomeUp(After(now, acts[..i]), call)
  }

  ghost predicate OneUpTo(now: int, acts: seq<Action>, n: nat, call: Ask)
    requires n <= |acts|
  {
    forall i: nat :: i <= n ==> AtMostOne(After(now, acts[..i]), call)
  }

  lemma NothingUpAtFirst(now: int, acts: seq<Action>, call: Ask)
    ensures AtMostOne(After(now, acts[..0]), call)
  {
  }

  lemma AfterOneMore(now: int, acts: seq<Action>, n: nat)
    requires n < |acts|
    ensures After(now, acts[..n + 1]) == Next(After(now, acts[..n]), acts[n])
  {
    assert acts[..n + 1] == acts[..n] + [acts[n]];
    RunStep(Initial(now), acts[..n], acts[n]);
  }

  /** Over any run a call has at most one card up at all times exactly when no step is one of those. */
  lemma {:induction false} OneCardPerCall(now: int, acts: seq<Action>, n: nat, call: Ask)
    requires n <= |acts|
    ensures OneUpTo(now, acts, n, call) <==> forall i: nat :: i < n ==> !AddsSecond(now, acts, i, call)
  {
    hide Next, After, PutsUp, SomeUp, AtMostOne;
    if n == 0 {
      NothingUpAtFirst(now, acts, call);
    } else {
      OneCardPerCall(now, acts, n - 1, call);
      AfterOneMore(now, acts, n - 1);
      var before, last := AtMostOne(After(now, acts[..n - 1]), call), AddsSecond(now, acts, n - 1, call);
      assert OneUpTo(now, acts, n - 1, call) ==> before;
      if before {
        SecondCardExactly(now, acts[..n - 1], acts[n - 1], call);
        assert AtMostOne(After(now, acts[..n]), call) <==> !last;
      }
      assert OneUpTo(now, acts, n, call) <==> OneUpTo(now, acts, n - 1, call) && AtMostOne(After(now, acts[..n]), call);
      assert (forall i: nat :: i < n ==> !AddsSecond(now, acts, i, call)) <==>
             (forall i: nat :: i < n - 1 ==> !AddsSecond(now, acts, i, call)) && !last;
    }
  }
}
