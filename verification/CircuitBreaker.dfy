/**
 The circuit breaker: a map from failing calls to entries with a three-valued state, which
 turns out to be two numbers a call.
 */
module CircuitBreaker {
  import opened Wrappers

  /** A call: the session, "default" when none is given, the tool, and the hash of its arguments' signature, if it has one. */
  datatype Key = Key(session: string, tool: string, sig: Option<string>)

  function Truthy(s: Option<string>, default: string): string {
    if s.GetOr("") == "" then default else s.value
  }

  function KeyOf(session: Option<string>, tool: string, sig: Option<string>): Key {
    Key(Truthy(session, "default"), tool, if sig.GetOr("") == "" then None else sig)
  }

  datatype BreakerState = Closed | Open | HalfOpen

  datatype Entry = Entry(state: BreakerState, consecutiveFailures: nat, openedAt: int, totalTrips: nat, lastFailureAt: int)

  datatype Decision = Decision(allowed: bool, state: BreakerState, consecutiveFailures: nat)

  const MAX_ENTRIES := 1000

  /** The two settings: a positive threshold and a cooldown that is not negative. */
  datatype Settings = Settings(threshold: int, cooldown: int)

  predicate Sensible(c: Settings) { c.threshold > 0 && c.cooldown >= 0 }

  type Entries = map<Key, Entry>

  // ---- the operations on the map ----

  function Check(m: Entries, k: Key, now: int, c: Settings): (Entries, Decision) {
    if k !in m then (m, Decision(true, Closed, 0))
    else
      var e := m[k];
      if e.state.Open? && now - e.openedAt >= c.cooldown then
        (m[k := e.(state := HalfOpen)], Decision(true, HalfOpen, e.consecutiveFailures))
      else (m, Decision(!e.state.Open?, e.state, e.consecutiveFailures))
  }

  predicate Cold(e: Entry, now: int, c: Settings) { e.lastFailureAt < now - 10 * c.cooldown }

  function Evicted(m: Entries, now: int, c: Settings): set<Key> {
    if |m| <= MAX_ENTRIES then {} else set k | k in m && Cold(m[k], now, c)
  }

  function Sweep(m: Entries, now: int, c: Settings): Entries { m - Evicted(m, now, c) }

  function Failed(e: Entry, now: int, c: Settings): Entry {
    var e1 := e.(consecutiveFailures := e.consecutiveFailures + 1, lastFailureAt := now);
    if e.state.HalfOpen? || e1.consecutiveFailures >= c.threshold
    then e1.(state := Open, openedAt := now, totalTrips := e.totalTrips + 1)
    else e1
  }

  const FRESH := Entry(Closed, 0, 0, 0, 0)

  function Fail(m: Entries, k: Key, now: int, c: Settings): Entries {
    var swept := Sweep(m, now, c);
    swept[k := Failed(if k in swept then swept[k] else FRESH, now, c)]
  }

  function ResetKeys(m: Entries, session: Option<string>, tool: string): set<Key> {
    set k | k in m && k.session == Truthy(session, "default") && k.tool == tool
  }

  // ---- the breaker itself ----

  class Breaker {
    var breakers: Entries
    const settings: Settings

    constructor (settings: Settings)
      ensures breakers == map[] && this.settings == settings
    {
      breakers, this.settings := map[], settings;
    }

    method CheckCircuit(session: Option<string>, tool: string, sig: Option<string>, now: int) returns (d: Decision)
      modifies this
      ensures (breakers, d) == Check(old(breakers), KeyOf(session, tool, sig), now, settings)
    {
      var k := KeyOf(session, tool, sig);
      if k !in breakers {
        return Decision(true, Closed, 0);
      }
      var entry := breakers[k];
      if entry.state.Open? {
        var elapsed := now - entry.openedAt;
        if elapsed >= settings.cooldown {
          breakers := breakers[k := entry.(state := HalfOpen)];
          return Decision(true, HalfOpen, entry.consecutiveFailures);
        }
        return Decision(false, Open, entry.consecutiveFailures);
      }
      return Decision(true, entry.state, entry.consecutiveFailures);
    }

    method RecordCircuitSuccess(session: Option<string>, tool: string, sig: Option<string>)
      modifies this
      ensures breakers == old(breakers) - {KeyOf(session, tool, sig)}
    {
      breakers := breakers - {KeyOf(session, tool, sig)};
    }

    method SweepCold(now: int)
      modifies this
      ensures breakers == Sweep(old(breakers), now, settings)
    {
      if |breakers| <= MAX_ENTRIES {
        return;
      }
      var all, todo := breakers, breakers.Keys;
      while todo != {}
        invariant todo <= all.Keys
        invariant breakers == all - (set k | k in all && k !in todo && Cold(all[k], now, settings))
        decreases |todo|
      {
        var k :| k in todo;
        todo := todo - {k};
        if Cold(all[k], now, settings) {
          breakers := breakers - {k};
        }
      }
    }

    method RecordCircuitFailure(session: Option<string>, tool: string, sig: Option<string>, now: int)
      modifies this
      ensures breakers == Fail(old(breakers), KeyOf(session, tool, sig), now, settings)
    {
      SweepCold(now);
      var k := KeyOf(session, tool, sig);
      var entry := if k in breakers then breakers[k] else FRESH;
      var was := entry.state;
      entry := entry.(consecutiveFailures := entry.consecutiveFailures + 1, lastFailureAt := now);
      if was.HalfOpen? || entry.consecutiveFailures >= settings.threshold {
        entry := entry.(state := Open, openedAt := now, totalTrips := entry.totalTrips + 1);
      }
      breakers := breakers[k := entry];
    }

    method ResetAllCircuits()
      modifies this
      ensures breakers == map[]
    {
      breakers := map[];
    }

    method ResetCircuit(session: Option<string>, tool: string)
      modifies this
      ensures breakers == old(breakers) - ResetKeys(old(breakers), session, tool)
    {
      breakers := breakers - ResetKeys(breakers, session, tool);
    }
  }

  // ---- which calls are one ----

  /** The same session, none standing for "default". */
  predicate SameSession(a: Option<string>, b: Option<string>) {
    (if a == None || a == Some("") then "default" else a.value) == (if b == None || b == Some("") then "default" else b.value)
  }

  /** The same signature, or none and none; a blank one is none. */
  predicate SameSig(a: Option<string>, b: Option<string>) {
    ((a == None || a == Some("")) && (b == None || b == Some(""))) || (a == b && a != None)
  }

  /** Two calls are one exactly when session, tool and signature agree. */
  lemma SameKeyIffSameCall(s: Option<string>, t: string, g: Option<string>, s': Option<string>, t': string, g': Option<string>)
    ensures KeyOf(s, t, g) == KeyOf(s', t', g') <==> SameSession(s, s') && t == t' && SameSig(g, g')
  {
  }

  /** A reset takes exactly the entries of its tool and session. */
  lemma ResetTakes(m: Entries, session: Option<string>, tool: string, s: Option<string>, t: string, g: Option<string>)
    requires KeyOf(s, t, g) in m
    ensures KeyOf(s, t, g) in ResetKeys(m, session, tool) <==> t == tool && SameSession(s, session)
  {
  }

  /** What one failure makes of an entry: one failure more, now the last; open when it was half open or reaches the threshold. */
  lemma FailureCounts(e: Entry, now: int, c: Settings)
    ensures var f := Failed(e, now, c);
            && f.consecutiveFailures == e.consecutiveFailures + 1 && f.lastFailureAt == now
            && if e.state == HalfOpen || e.consecutiveFailures + 1 >= c.threshold
               then f.state == Open && f.openedAt == now && f.totalTrips == e.totalTrips + 1
               else f.state == e.state && f.openedAt == e.openedAt && f.totalTrips == e.totalTrips
  {
  }

  // ---- runs ----

  datatype Event =
    | CheckEvent(k: Key, now: int)
    | FailEvent(k: Key, now: int)
    | SuccessEvent(k: Key)
    | ResetEvent(session: Option<string>, tool: string)
    | ResetAllEvent

  function After(m: Entries, e: Event, c: Settings): Entries {
    match e
    case CheckEvent(k, now) => Check(m, k, now, c).0
    case FailEvent(k, now) => Fail(m, k, now, c)
    case SuccessEvent(k) => m - {k}
    case ResetEvent(session, tool) => m - ResetKeys(m, session, tool)
    case ResetAllEvent => map[]
  }

  function Run(es: seq<Event>, c: Settings): Entries {
    if es == [] then map[] else After(Run(es[..|es| - 1], c), es[|es| - 1], c)
  }

  /** The last time the clock was read, if it was. */
  function Clock(es: seq<Event>): Option<int> {
    if es == [] then None
    else if es[|es| - 1].CheckEvent? || es[|es| - 1].FailEvent? then Some(es[|es| - 1].now)
    else Clock(es[..|es| - 1])
  }

  /** The clock never goes back. */
  predicate Timed(es: seq<Event>) {
    es == [] ||
    (Timed(es[..|es| - 1])
     && (es[|es| - 1].CheckEvent? || es[|es| - 1].FailEvent? ==>
           Clock(es[..|es| - 1]).None? || Clock(es[..|es| - 1]).value <= es[|es| - 1].now))
  }

  // ---- the two numbers, read off the events ----

  /** Does this event, here, forget the call's failures: a success, a reset, or a sweep that takes its entry? */
  predicate Forgets(es: seq<Event>, e: Event, k: Key, c: Settings) {
    match e
    case SuccessEvent(j) => j == k
    case ResetEvent(session, tool) => k.session == Truthy(session, "default") && k.tool == tool
    case ResetAllEvent => true
    case FailEvent(_, now) => k in Evicted(Run(es, c), now, c)
    case CheckEvent(_, _) => false
  }

  /** Failures of the call since it was last forgotten. */
  function Failures(es: seq<Event>, k: Key, c: Settings): nat {
    if es == [] then 0
    else
      var e, before := es[|es| - 1], es[..|es| - 1];
      (if Forgets(before, e, k, c) then 0 else Failures(before, k, c)) + (if e.FailEvent? && e.k == k then 1 else 0)
  }

  /** When it last failed. */
  function LastFailure(es: seq<Event>, k: Key): int {
    if es == [] then 0
    else if es[|es| - 1].FailEvent? && es[|es| - 1].k == k then es[|es| - 1].now
    else LastFailure(es[..|es| - 1], k)
  }

  predicate Refused(es: seq<Event>, k: Key, now: int, c: Settings) {
    Failures(es, k, c) >= c.threshold && now - LastFailure(es, k) < c.cooldown
  }

  /** An entry is its two numbers: its state follows from the count, and half open means the cooldown has passed. */
  ghost predicate EntryIs(e: Entry, failures: nat, last: int, clock: Option<int>, c: Settings) {
    && e.consecutiveFailures == failures > 0 && e.lastFailureAt == last && clock.Some? && last <= clock.value
    && (e.state.Closed? <==> failures < c.threshold)
    && (e.state.Open? ==> e.openedAt == last)
    && (e.state.HalfOpen? ==> clock.value - last >= c.cooldown)
  }

  ghost predicate Tracks(m: Entries, es: seq<Event>, c: Settings) {
    && (forall k :: k in m <==> Failures(es, k, c) > 0)
    && (forall k :: k in m ==> EntryIs(m[k], Failures(es, k, c), LastFailure(es, k), Clock(es), c))
  }

  lemma StepTracks(m: Entries, es: seq<Event>, e: Event, c: Settings)
    requires Sensible(c) && Timed(es + [e]) && m == Run(es, c) && Tracks(m, es, c)
    ensures Tracks(After(m, e, c), es + [e], c)
  {
    assert (es + [e])[..|es|] == es && (es + [e])[|es|] == e;
    var m' := After(m, e, c);
    forall k
      ensures k in m' <==> Failures(es + [e], k, c) > 0
      ensures k in m' ==> EntryIs(m'[k], Failures(es + [e], k, c), LastFailure(es + [e], k), Clock(es + [e]), c)
    {
      KeyTracks(m, es, e, c, k);
    }
  }

  /** The numbers after one event more. */
  lemma OneMore(es: seq<Event>, e: Event, k: Key, c: Settings)
    ensures Failures(es + [e], k, c) ==
            (if Forgets(es, e, k, c) then 0 else Failures(es, k, c)) + (if e.FailEvent? && e.k == k then 1 else 0)
    ensures LastFailure(es + [e], k) == if e.FailEvent? && e.k == k then e.now else LastFailure(es, k)
    ensures Clock(es + [e]) == if e.CheckEvent? || e.FailEvent? then Some(e.now) else Clock(es)
    ensures Timed(es + [e]) <==>
            Timed(es) && (e.CheckEvent? || e.FailEvent? ==> Clock(es).None? || Clock(es).value <= e.now)
    ensures Run(es + [e], c) == After(Run(es, c), e, c)
  {
    assert (es + [e])[..|es|] == es && (es + [e])[|es|] == e;
    hide Forgets, After;
  }

  lemma KeyTracks(m: Entries, es: seq<Event>, e: Event, c: Settings, k: Key)
    requires Sensible(c) && Timed(es + [e]) && m == Run(es, c) && Tracks(m, es, c)
    ensures k in After(m, e, c) <==> Failures(es + [e], k, c) > 0
    ensures k in After(m, e, c) ==>
              EntryIs(After(m, e, c)[k], Failures(es + [e], k, c), LastFailure(es + [e], k), Clock(es + [e]), c)
  {
    hide Tracks, After, EntryIs, Failures, LastFailure, Clock, Timed, Run;
    if e.FailEvent? {
      FailTracks(m, es, e, c, k);
    } else {
      OtherTracks(m, es, e, c, k);
    }
  }

  lemma FailTracks(m: Entries, es: seq<Event>, e: Event, c: Settings, k: Key)
    requires Sensible(c) && Timed(es + [e]) && m == Run(es, c) && Tracks(m, es, c) && e.FailEvent?
    ensures k in After(m, e, c) <==> Failures(es + [e], k, c) > 0
    ensures k in After(m, e, c) ==>
              EntryIs(After(m, e, c)[k], Failures(es + [e], k, c), LastFailure(es + [e], k), Clock(es + [e]), c)
  {
    hide Tracks, Run, Failures, LastFailure, Clock, Timed;
    OneMore(es, e, k, c);
    TracksAt(m, es, k, c);
  }

  lemma OtherTracks(m: Entries, es: seq<Event>, e: Event, c: Settings, k: Key)
    requires Sensible(c) && Timed(es + [e]) && m == Run(es, c) && Tracks(m, es, c) && !e.FailEvent?
    ensures k in After(m, e, c) <==> Failures(es + [e], k, c) > 0
    ensures k in After(m, e, c) ==>
              EntryIs(After(m, e, c)[k], Failures(es + [e], k, c), LastFailure(es + [e], k), Clock(es + [e]), c)
  {
    hide Tracks, Run, Failures, LastFailure, Clock, Timed;
    OneMore(es, e, k, c);
    TracksAt(m, es, k, c);
  }

  /** After any run the map holds exactly the calls with failures, each as its two numbers. */
  lemma {:induction false} MapIsTwoNumbers(es: seq<Event>, c: Settings)
    requires Sensible(c) && Timed(es)
    ensures Tracks(Run(es, c), es, c)
  {
    hide Tracks, After;
    if es == [] {
      NothingTracked(c);
    } else {
      var before, e := es[..|es| - 1], es[|es| - 1];
      assert es == before + [e];
      MapIsTwoNumbers(before, c);
      StepTracks(Run(before, c), before, e, c);
    }
  }

  lemma NothingTracked(c: Settings)
    ensures Tracks(Run([], c), [], c)
  {
  }

  /**
   After any events under a clock that does not go back, a call is refused exactly when its failures since it was
   last forgotten reach the threshold and the last of them is less than the cooldown ago.
   */
  lemma RefusedExactlyWhen(es: seq<Event>, k: Key, now: int, c: Settings)
    requires Sensible(c) && Timed(es) && (Clock(es).Some? ==> Clock(es).value <= now)
    ensures !Check(Run(es, c), k, now, c).1.allowed <==> Refused(es, k, now, c)
  {
    MapIsTwoNumbers(es, c);
  }

  /** A sweep changes no decision that could be taken now. */
  lemma SweepChangesNoDecision(es: seq<Event>, k: Key, now: int, c: Settings)
    requires Sensible(c) && Timed(es) && (Clock(es).Some? ==> Clock(es).value <= now)
    ensures var m := Run(es, c); Check(Sweep(m, now, c), k, now, c).1.allowed == Check(m, k, now, c).1.allowed
  {
    MapIsTwoNumbers(es, c);
  }

  /** An event about one call leaves what a check of any other call would answer at that time as it was. */
  lemma OthersChangeNoDecisionNow(es: seq<Event>, e: Event, k: Key, now: int, c: Settings)
    requires Sensible(c) && Timed(es + [e]) && (Clock(es + [e]).Some? ==> Clock(es + [e]).value <= now)
    requires (e.CheckEvent? || e.FailEvent? || e.SuccessEvent?) && e.k != k
    ensures Refused(es + [e], k, now, c) <==> Refused(es, k, now, c)
  {
    assert (es + [e])[..|es|] == es && (es + [e])[|es|] == e;
    MapIsTwoNumbers(es, c);
  }

  /** A failure of one call forgets another's failures exactly when the map is over its limit and that entry is long cold. */
  lemma FailureForgetsExactlyTheCold(es: seq<Event>, j: Key, k: Key, now: int, c: Settings)
    requires Sensible(c) && Timed(es + [FailEvent(j, now)]) && j != k
    ensures var cold := |Run(es, c)| > MAX_ENTRIES && Failures(es, k, c) > 0 && LastFailure(es, k) < now - 10 * c.cooldown;
            && (Failures(es + [FailEvent(j, now)], k, c) != Failures(es, k, c) <==> cold)
            && (cold ==> Failures(es + [FailEvent(j, now)], k, c) == 0)
    ensures LastFailure(es + [FailEvent(j, now)], k) == LastFailure(es, k)
  {
    assert (es + [FailEvent(j, now)])[..|es|] == es;
    MapIsTwoNumbers(es, c);
  }

  // ---- a call's own events ----

  /** Is this event about the call: its own check, failure or success, or a reset? */
  predicate Concerns(e: Event, k: Key) {
    e.ResetEvent? || e.ResetAllEvent? || e.k == k
  }

  /** The run with the events of all other calls left out. */
  function Own(es: seq<Event>, k: Key): seq<Event> {
    if es == [] then []
    else Own(es[..|es| - 1], k) + if Concerns(es[|es| - 1], k) then [es[|es| - 1]] else []
  }

  /** Since the call last succeeded or was reset, has some sweep taken its entry? */
  predicate SweptAway(es: seq<Event>, k: Key, c: Settings) {
    if es == [] then false
    else
      var e, before := es[|es| - 1], es[..|es| - 1];
      if e.FailEvent? then SweptAway(before, k, c) || k in Evicted(Run(before, c), e.now, c)
      else !Forgets(before, e, k, c) && SweptAway(before, k, c)
  }

  predicate NoLater(a: Option<int>, b: Option<int>) { a.Some? ==> b.Some? && a.value <= b.value }

  lemma {:induction false} OwnIsTimed(es: seq<Event>, k: Key)
    requires Timed(es)
    ensures Timed(Own(es, k)) && NoLater(Clock(Own(es, k)), Clock(es))
    ensures LastFailure(Own(es, k), k) == LastFailure(es, k)
  {
    if es != [] {
      var before, e := es[..|es| - 1], es[|es| - 1];
      OwnIsTimed(before, k);
      if Concerns(e, k) {
        assert Own(es, k)[..|Own(es, k)| - 1] == Own(before, k);
      } else {
        assert Own(es, k) == Own(before, k);
      }
    }
  }

  lemma {:induction false} OwnHoldsOneEntry(es: seq<Event>, k: Key, c: Settings)
    ensures Run(Own(es, k), c).Keys <= {k}
  {
    if es != [] {
      var before, e := es[..|es| - 1], es[|es| - 1];
      OwnHoldsOneEntry(before, k, c);
      if Concerns(e, k) {
        assert Own(es, k)[..|Own(es, k)| - 1] == Own(before, k);
        AfterOwn(Run(Own(before, k), c), e, k, c);
      } else {
        assert Own(es, k) == Own(before, k);
      }
    }
  }

  lemma AfterOwn(m: Entries, e: Event, k: Key, c: Settings)
    requires m.Keys <= {k} && Concerns(e, k)
    ensures After(m, e, c).Keys <= {k}
  {
  }

  /** Among its own events nothing is ever swept. */
  lemma OwnIsNeverSwept(es: seq<Event>, k: Key, now: int, c: Settings)
    ensures Evicted(Run(Own(es, k), c), now, c) == {}
  {
    OwnHoldsOneEntry(es, k, c);
    var m := Run(Own(es, k), c);
    if m.Keys != {} {
      assert m.Keys == {k};
    }
    assert |m| == |m.Keys| <= 1;
  }

  /** The count never exceeds that of the call's own events, and falls behind it exactly when a sweep took the entry. */
  lemma {:induction false} CountIsOwn(es: seq<Event>, k: Key, c: Settings)
    requires Sensible(c) && Timed(es)
    ensures Failures(es, k, c) <= Failures(Own(es, k), k, c)
    ensures Failures(es, k, c) == Failures(Own(es, k), k, c) <==> !SweptAway(es, k, c)
  {
    if es != [] {
      var before, e := es[..|es| - 1], es[|es| - 1];
      CountIsOwn(before, k, c);
      MapIsTwoNumbers(before, c);
      if Concerns(e, k) {
        assert Own(es, k)[..|Own(es, k)| - 1] == Own(before, k);
        if e.FailEvent? {
          OwnIsNeverSwept(before, k, e.now, c);
        }
      } else {
        assert Own(es, k) == Own(before, k);
      }
    }
  }

  /**
   Calls are independent: over any run, a call's count is that of its own events alone exactly when no sweep has taken
   its entry since it last succeeded or was reset, and then every check of it, at any time, answers what it would if no
   other call had ever been made.
   */
  lemma CallsAreIndependent(es: seq<Event>, k: Key, now: int, c: Settings)
    requires Sensible(c) && Timed(es) && (Clock(es).Some? ==> Clock(es).value <= now)
    ensures Failures(es, k, c) == Failures(Own(es, k), k, c) <==> !SweptAway(es, k, c)
    ensures !SweptAway(es, k, c) ==> Check(Run(es, c), k, now, c).1 == Check(Run(Own(es, k), c), k, now, c).1
    ensures Check(Run(Own(es, k), c), k, now, c).1.allowed ==> Check(Run(es, c), k, now, c).1.allowed
  {
    CountIsOwn(es, k, c);
    OwnIsTimed(es, k);
    DecisionIsTwoNumbers(es, k, now, c);
    DecisionIsTwoNumbers(Own(es, k), k, now, c);
  }

  /** What a check answers, from the two numbers. */
  function Answer(failures: nat, last: int, now: int, c: Settings): Decision {
    if failures < c.threshold then Decision(true, Closed, failures)
    else if now - last >= c.cooldown then Decision(true, HalfOpen, failures)
    else Decision(false, Open, failures)
  }

  lemma DecisionIsTwoNumbers(es: seq<Event>, k: Key, now: int, c: Settings)
    requires Sensible(c) && Timed(es) && (Clock(es).Some? ==> Clock(es).value <= now)
    ensures Check(Run(es, c), k, now, c).1 == Answer(Failures(es, k, c), LastFailure(es, k), now, c)
  {
    MapIsTwoNumbers(es, c);
    TracksAt(Run(es, c), es, k, c);
    hide Tracks, Run, Failures, LastFailure, Timed, Clock;
  }

  lemma TracksAt(m: Entries, es: seq<Event>, k: Key, c: Settings)
    requires Tracks(m, es, c)
    ensures k in m <==> Failures(es, k, c) > 0
    ensures k in m ==> EntryIs(m[k], Failures(es, k, c), LastFailure(es, k), Clock(es), c)
  {
  }

  function FailedKeys(es: seq<Event>): set<Key> {
    if es == [] then {}
    else FailedKeys(es[..|es| - 1]) + if es[|es| - 1].FailEvent? then {es[|es| - 1].k} else {}
  }

  lemma CardinalityGrows<T>(a: set<T>, b: set<T>)
    requires a <= b
    ensures |a| <= |b|
  {
    if a != {} {
      var x :| x in a;
      CardinalityGrows(a - {x}, b - {x});
    }
  }

  /** While no more calls than the limit have ever failed, nothing is swept away. */
  lemma {:induction false} FewCallsAreNeverSwept(es: seq<Event>, k: Key, c: Settings)
    requires |FailedKeys(es)| <= MAX_ENTRIES
    ensures !SweptAway(es, k, c) && Run(es, c).Keys <= FailedKeys(es)
  {
    if es != [] {
      var before := es[..|es| - 1];
      CardinalityGrows(FailedKeys(before), FailedKeys(es));
      FewCallsAreNeverSwept(before, k, c);
      CardinalityGrows(Run(before, c).Keys, FailedKeys(before));
      assert |Run(before, c)| == |Run(before, c).Keys|;
    }
  }

  // ---- a run in which one call's failure forgets another's ----

  function Nth(i: nat): Key { Key("default", "tool", Some(seq(i, _ => 'x'))) }

  lemma NthDiffer(i: nat, j: nat)
    requires i != j
    ensures Nth(i) != Nth(j)
  {
    assert |Nth(i).sig.value| == i && |Nth(j).sig.value| == j;
  }

  /** One failure of each of the first n calls, all at time zero. */
  function OneEach(n: nat): seq<Event> {
    if n == 0 then [] else OneEach(n - 1) + [FailEvent(Nth(n - 1), 0)]
  }

  /** The map holds n entries, of calls with shorter signatures than the next one's. */
  ghost predicate Fills(es: seq<Event>, n: nat, c: Settings) {
    && Timed(es) && Clock(es) == (if n > 0 then Some(0) else None)
    && |Run(es, c)| == n && forall q :: q in Run(es, c) ==> q.sig.Some? && |q.sig.value| < n
  }

  lemma NextFills(es: seq<Event>, n: nat, c: Settings)
    requires Fills(es, n, c) && n <= MAX_ENTRIES
    ensures Fills(es + [FailEvent(Nth(n), 0)], n + 1, c)
  {
    var q := Nth(n);
    AfterOneFailure(es, q, q, c);
    NthSig(n);
    hide Run, Timed, Clock, Failures, LastFailure, Fail, Nth;
    var m := Run(es, c);
    assert Evicted(m, 0, c) == {};
    FailAdds(m, q, 0, c);
    assert forall p :: p in Fail(m, q, 0, c) ==> p in m.Keys || p == q;
  }

  lemma {:induction false} OneEachFills(n: nat, c: Settings)
    requires n <= MAX_ENTRIES + 1
    ensures Fills(OneEach(n), n, c)
  {
    if n > 0 {
      OneEachFills(n - 1, c);
      NextFills(OneEach(n - 1), n - 1, c);
      hide Fills;
    }
  }

  ghost predicate Counted(es: seq<Event>, n: nat, k: nat, c: Settings) {
    Failures(es, Nth(k), c) == (if k < n then 1 else 0) && LastFailure(es, Nth(k)) == 0
  }

  lemma NextCounts(es: seq<Event>, n: nat, k: nat, c: Settings)
    requires Fills(es, n, c) && n <= MAX_ENTRIES && Counted(es, n, k, c)
    ensures Counted(es + [FailEvent(Nth(n), 0)], n + 1, k, c)
  {
    hide Run, Failures, LastFailure, Clock, Timed, Fail, Nth;
    AfterOneFailure(es, Nth(n), Nth(k), c);
    if k != n {
      NthDiffer(k, n);
    }
  }

  lemma NoneCounted(k: nat, c: Settings)
    ensures Counted([], 0, k, c)
  {
  }

  lemma {:induction false} OneEachCounts(n: nat, k: nat, c: Settings)
    requires n <= MAX_ENTRIES + 1
    ensures Counted(OneEach(n), n, k, c)
  {
    hide Fills, Counted;
    if n == 0 {
      NoneCounted(k, c);
    } else {
      OneEachCounts(n - 1, k, c);
      OneEachFills(n - 1, c);
      NextCounts(OneEach(n - 1), n - 1, k, c);
    }
  }

  lemma NthSig(n: nat)
    ensures Nth(n).sig.Some? && |Nth(n).sig.value| == n
  {
  }

  /** One failure more at time zero, in a run so far without a sweep. */
  lemma AfterOneFailure(es: seq<Event>, q: Key, k: Key, c: Settings)
    requires Timed(es) && Clock(es).GetOr(0) == 0 && |Run(es, c)| <= MAX_ENTRIES
    ensures var more := es + [FailEvent(q, 0)];
            && Timed(more) && Clock(more) == Some(0) && Run(more, c) == Fail(Run(es, c), q, 0, c)
            && Failures(more, k, c) == Failures(es, k, c) + (if q == k then 1 else 0)
            && LastFailure(more, k) == if q == k then 0 else LastFailure(es, k)
  {
    hide Run, Failures, LastFailure, Clock, Timed, Fail;
    OneMore(es, FailEvent(q, 0), k, c);
  }

  lemma FailAdds(m: Entries, q: Key, now: int, c: Settings)
    requires q !in m && Evicted(m, now, c) == {}
    ensures |Fail(m, q, now, c)| == |m| + 1 && Fail(m, q, now, c).Keys == m.Keys + {q}
  {
    assert Fail(m, q, now, c).Keys == m.Keys + {q};
    assert |Fail(m, q, now, c)| == |Fail(m, q, now, c).Keys| && |m| == |m.Keys|;
  }

  lemma {:induction false} OwnOfOneEach(n: nat)
    ensures Own(OneEach(n), Nth(0)) == if n == 0 then [] else [FailEvent(Nth(0), 0)]
  {
    if n > 0 {
      OwnOfOneEach(n - 1);
      assert OneEach(n)[..|OneEach(n)| - 1] == OneEach(n - 1);
      if n > 1 {
        NthDiffer(0, n - 1);
      }
    }
  }

  /** A thousand and one calls fail, and after ten cooldowns one more fails and then the first again. */
  function CrowdedRun(now: int): seq<Event> {
    OneEach(MAX_ENTRIES + 1) + [FailEvent(Nth(MAX_ENTRIES + 1), now)] + [FailEvent(Nth(0), now)]
  }

  /**
   Where other calls do matter: with over a thousand of them in the map, the failure of one forgets the first one's, whose
   second failure then does not open it, as it would have by itself.
   */
  lemma SweptAwayHappens(c: Settings, now: int)
    requires c == Settings(2, 60000) && now == 10 * c.cooldown + 1
    ensures Timed(CrowdedRun(now)) && SweptAway(CrowdedRun(now), Nth(0), c)
    ensures Check(Run(CrowdedRun(now), c), Nth(0), now, c).1.allowed
    ensures !Check(Run(Own(CrowdedRun(now), Nth(0)), c), Nth(0), now, c).1.allowed
  {
    var es, k := OneEach(MAX_ENTRIES + 1), Nth(0);
    CrowdForgets(now, c);
    OwnOfOneEach(MAX_ENTRIES + 1);
    var two := es + [FailEvent(Nth(MAX_ENTRIES + 1), now)];
    assert two[..|es|] == es && CrowdedRun(now)[..|two|] == two;
    var own := [FailEvent(k, 0), FailEvent(k, now)];
    NthDiffer(0, MAX_ENTRIES + 1);
    assert Own(two, k) == [FailEvent(k, 0)];
    assert Own(CrowdedRun(now), k) == own;
    CallsAreIndependent(CrowdedRun(now), k, now, c);
    DecisionIsTwoNumbers(CrowdedRun(now), k, now, c);
    OwnIsTimed(CrowdedRun(now), k);
    OwnCountsTwo(k, now, c);
    DecisionIsTwoNumbers(own, k, now, c);
  }

  lemma OwnCountsTwo(k: Key, now: int, c: Settings)
    ensures Failures([FailEvent(k, 0), FailEvent(k, now)], k, c) == 2
    ensures LastFailure([FailEvent(k, 0), FailEvent(k, now)], k) == now
  {
    var one := [FailEvent(k, 0)];
    assert one[..0] == [] && [FailEvent(k, 0), FailEvent(k, now)][..1] == one;
    assert Run([], c) == map[];
    assert Failures(one, k, c) == 1;
    assert Run(one, c).Keys == {k};
    assert |Run(one, c)| == |Run(one, c).Keys| == 1;
  }

  lemma CrowdForgets(now: int, c: Settings)
    requires c == Settings(2, 60000) && now == 10 * c.cooldown + 1
    ensures Timed(CrowdedRun(now)) && Clock(CrowdedRun(now)) == Some(now)
    ensures Failures(CrowdedRun(now), Nth(0), c) == 1 && LastFailure(CrowdedRun(now), Nth(0)) == now
  {
    var es, j, k := OneEach(MAX_ENTRIES + 1), Nth(MAX_ENTRIES + 1), Nth(0);
    OneEachFills(MAX_ENTRIES + 1, c);
    OneEachCounts(MAX_ENTRIES + 1, 0, c);
    NthDiffer(0, MAX_ENTRIES + 1);
    var two := es + [FailEvent(j, now)];
    TimedMore(es, j, now);
    TimedMore(two, k, now);
    FailureForgetsExactlyTheCold(es, j, k, now, c);
    NothingToForget(two, k, now, c);
  }

  lemma TimedMore(es: seq<Event>, k: Key, now: int)
    requires Timed(es) && (Clock(es).Some? ==> Clock(es).value <= now)
    ensures Timed(es + [FailEvent(k, now)]) && Clock(es + [FailEvent(k, now)]) == Some(now)
  {
    assert (es + [FailEvent(k, now)])[..|es|] == es;
  }

  /** The first failure after none. */
  lemma NothingToForget(es: seq<Event>, k: Key, now: int, c: Settings)
    requires Failures(es, k, c) == 0
    ensures Failures(es + [FailEvent(k, now)], k, c) == 1 && LastFailure(es + [FailEvent(k, now)], k) == now
  {
    assert (es + [FailEvent(k, now)])[..|es|] == es;
  }

  /** A call that is let through stays so, every check of it and not one probe only, until it next fails. */
  lemma {:induction false} HalfOpenAdmitsAll(es: seq<Event>, more: seq<Event>, k: Key, now: int, later: int, c: Settings)
    requires Sensible(c) && Timed(es + more) && NoLater(Clock(es), Some(now)) && NoLater(Clock(es + more), Some(later))
    requires Check(Run(es, c), k, now, c).1.allowed && now <= later
    requires forall e :: e in more && e.FailEvent? ==> e.k != k
    ensures Check(Run(es + more, c), k, later, c).1.allowed
  {
    QuietRunOnlyForgets(es, more, k, c);
    DecisionIsTwoNumbers(es, k, now, c);
    DecisionIsTwoNumbers(es + more, k, later, c);
  }

  lemma {:induction false} QuietRunOnlyForgets(es: seq<Event>, more: seq<Event>, k: Key, c: Settings)
    requires Timed(es + more) && forall e :: e in more && e.FailEvent? ==> e.k != k
    ensures Timed(es)
    ensures Failures(es + more, k, c) <= Failures(es, k, c) && LastFailure(es + more, k) == LastFailure(es, k)
    decreases |more|
  {
    if more == [] {
      assert es + more == es;
    } else {
      var fewer := more[..|more| - 1];
      assert (es + more)[..|es + more| - 1] == es + fewer;
      QuietRunOnlyForgets(es, fewer, k, c);
    }
  }
}
