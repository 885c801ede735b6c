/**
 The plugin manager's lifecycle: the registry on disk, the plugins loaded in memory, and loads
 that are suspended while their entry point is imported.
 */
module PluginLifecycle {
  import opened Wrappers

  type Id = string

  datatype Entry = Entry(enabled: bool, path: string, entryHash: Option<string>, manifestHash: Option<string>, manifestId: Option<Id>)

  type Registry = map<Id, Entry>

  /** A plugin on disk as one load finds it. */
  datatype Found = Found(id: Id, path: string, manifestHash: string, entryHash: string, contributes: bool)

  datatype Loaded = Loaded(path: string, manifestHash: string)

  /** What a restore, a retry or an enable read in the registry some time before. */
  datatype Expected = Expected(id: Id, entryHash: string, manifestHash: Option<string>, enable: bool)

  /** A load between its checks and its commit. */
  datatype Pending = Pending(found: Found, expected: Option<Expected>)

  /** How one read of the registry goes: fine, contents invalid, or not reachable. */
  datatype ReadOutcome = Good | Invalid | Unavailable

  datatype Result<T> = Ok(value: T) | Err

  datatype State = State(registry: Registry, loaded: map<Id, Loaded>)

  // ---- the synchronous segments ----

  /** readRegistry: invalid contents unload everything, an unreachable store changes nothing. */
  function AfterRead(s: State, read: ReadOutcome): State {
    if read.Invalid? then s.(loaded := map[]) else s
  }

  function PinFor(s: State, found: Found, expected: Option<Expected>): Option<string> {
    var own := if found.id in s.registry then s.registry[found.id].manifestHash else None;
    if expected.Some? then expected.value.manifestHash.OrElse(own) else own
  }

  /** Does loadPluginAtPath reach its import? `checks` covers the entry point's existence and the secrets. */
  predicate Begins(s: State, found: Found, expected: Option<Expected>, read: ReadOutcome, checks: bool) {
    && (expected.Some? ==> expected.value.id == found.id)
    && read.Good?
    && (expected.Some? && found.contributes ==> PinFor(s, found, expected).Some?)
    && (PinFor(s, found, expected).Some? ==> PinFor(s, found, expected).value == found.manifestHash)
    && found.id !in s.loaded && checks
  }

  function AfterBegin(s: State, found: Found, expected: Option<Expected>, read: ReadOutcome): State {
    if expected.Some? && expected.value.id != found.id then s else AfterRead(s, read)
  }

  /** How the import and the steps after it go. */
  datatype Luck = Luck(imported: bool, read: ReadOutcome, wrote: bool, activated: bool)

  predicate Unchanged(current: Option<Entry>, p: Pending)
    requires p.expected.Some?
  {
    && current.Some? && current.value.path == p.found.path
    && current.value.entryHash == Some(p.expected.value.entryHash)
    && current.value.manifestHash == p.expected.value.manifestHash
  }

  function Current(s: State, id: Id): Option<Entry> {
    if id in s.registry then Some(s.registry[id]) else None
  }

  /** Does the commit get as far as activating? */
  predicate Activates(s: State, p: Pending, l: Luck) {
    && l.imported && l.read.Good?
    && match p.expected
       case None => l.wrote
       case Some(x) =>
         if x.enable then Unchanged(Current(s, p.found.id), p) && !Current(s, p.found.id).value.enabled && l.wrote
         else Unchanged(Current(s, p.found.id), p) && Current(s, p.found.id).value.enabled
  }

  /** The entry a commit writes, if it writes. */
  function Registered(s: State, p: Pending): Entry {
    if p.expected.None? then Entry(true, p.found.path, Some(p.found.entryHash), Some(p.found.manifestHash), Some(p.found.id))
    else
      var current := Current(s, p.found.id);
      if current.Some? then current.value.(enabled := true, manifestId := Some(p.found.id))
      else Entry(true, p.found.path, None, None, None)
  }

  predicate Writes(p: Pending) { p.expected.None? || p.expected.value.enable }

  /** From the import's completion to the end of loadPluginAtPath. */
  function AfterCommit(s: State, p: Pending, l: Luck): State {
    if !l.imported then s
    else if !Activates(s, p, l) then AfterRead(s, l.read)
    else
      var registry := if Writes(p) then s.registry[p.found.id := Registered(s, p)] else s.registry;
      State(registry, if l.activated then s.loaded[p.found.id := Loaded(p.found.path, p.found.manifestHash)] else s.loaded)
  }

  function Disabled(s: State, id: Id): Entry
    requires id in s.registry
  {
    var e := s.registry[id].(enabled := false);
    if id in s.loaded then e.(manifestId := Some(id), manifestHash := Some(s.loaded[id].manifestHash)) else e
  }

  function AfterDisable(s: State, id: Id, read: ReadOutcome, wrote: bool): State {
    if !read.Good? then AfterRead(s, read)
    else if id !in s.registry || !wrote then s
    else State(s.registry[id := Disabled(s, id)], s.loaded - {id})
  }

  // ---- the manager ----

  class PluginManager {
    var registry: Registry
    var loaded: map<Id, Loaded>

    ghost function Abs(): State
      reads this
    {
      State(registry, loaded)
    }

    constructor (registry: Registry)
      ensures Abs() == State(registry, map[])
    {
      this.registry, loaded := registry, map[];
    }

    method ReadRegistry(outcome: ReadOutcome) returns (ok: bool)
      modifies this`loaded
      ensures Abs() == AfterRead(old(Abs()), outcome) && ok == outcome.Good?
    {
      if outcome.Invalid? {
        loaded := map[];
      }
      return outcome.Good?;
    }

    method BeginLoad(found: Found, expected: Option<Expected>, read: ReadOutcome, checks: bool) returns (r: Result<Pending>)
      modifies this`loaded
      ensures Abs() == AfterBegin(old(Abs()), found, expected, read)
      ensures r == if Begins(old(Abs()), found, expected, read, checks) then Ok(Pending(found, expected)) else Err
    {
      if expected.Some? && expected.value.id != found.id {
        return Err;
      }
      var ok := ReadRegistry(read);
      if !ok {
        return Err;
      }
      var pin := if found.id in registry then registry[found.id].manifestHash else None;
      if expected.Some? {
        pin := expected.value.manifestHash.OrElse(pin);
      }
      if expected.Some? && found.contributes && pin.None? {
        return Err;
      }
      if pin.Some? && pin.value != found.manifestHash {
        return Err;
      }
      if found.id in loaded {
        return Err;
      }
      if !checks {
        return Err;
      }
      return Ok(Pending(found, expected));
    }

    /** After the await: check again, write if the registry is to change, and only then activate. */
    method FinishLoad(p: Pending, l: Luck) returns (activated: bool)
      modifies this
      ensures Abs() == AfterCommit(old(Abs()), p, l)
      ensures activated == (Activates(old(Abs()), p, l) && l.activated)
    {
      if !l.imported {
        return false;
      }
      var ok := ReadRegistry(l.read);
      if !ok {
        return false;
      }
      var id := p.found.id;
      if p.expected.None? {
        if !l.wrote {
          return false;
        }
        registry := registry[id := Entry(true, p.found.path, Some(p.found.entryHash), Some(p.found.manifestHash), Some(id))];
      } else {
        var same := id in registry && registry[id].path == p.found.path
                         && registry[id].entryHash == Some(p.expected.value.entryHash)
                         && registry[id].manifestHash == p.expected.value.manifestHash;
        if p.expected.value.enable {
          if !same || registry[id].enabled || !l.wrote {
            return false;
          }
          registry := registry[id := registry[id].(enabled := true, manifestId := Some(id))];
        } else if !same || !registry[id].enabled {
          return false;
        }
      }
      if !l.activated {
        return false;
      }
      loaded := loaded[id := Loaded(p.found.path, p.found.manifestHash)];
      return true;
    }

    method DisablePlugin(id: Id, read: ReadOutcome, wrote: bool) returns (r: Result<bool>)
      modifies this
      ensures Abs() == AfterDisable(old(Abs()), id, read, wrote)
      ensures r == if !read.Good? then Err else if id !in old(registry) then Ok(false) else if wrote then Ok(true) else Err
    {
      var ok := ReadRegistry(read);
      if !ok {
        return Err;
      }
      if id !in registry {
        return Ok(false);
      }
      var entry := registry[id].(enabled := false);
      if id in loaded {
        entry := entry.(manifestId := Some(id), manifestHash := Some(loaded[id].manifestHash));
      }
      if !wrote {
        return Err;
      }
      registry := registry[id := entry];
      loaded := loaded - {id};
      return Ok(true);
    }

    /** enablePlugin up to its load: what it expects to find again at the commit. */
    method ExpectEnable(id: Id, read: ReadOutcome) returns (r: Result<Expected>)
      modifies this`loaded
      ensures Abs() == AfterRead(old(Abs()), read)
      ensures r.Ok? <==> read.Good? && id in registry && !registry[id].enabled && registry[id].manifestId == Some(id)
                         && registry[id].entryHash.Some? && registry[id].manifestHash.Some?
      ensures r.Ok? ==> r.value == Expected(id, registry[id].entryHash.value, registry[id].manifestHash, true)
    {
      var ok := ReadRegistry(read);
      if !ok || id !in registry || registry[id].enabled {
        return Err;
      }
      var entry := registry[id];
      if entry.manifestId != Some(id) || entry.entryHash.None? || entry.manifestHash.None? {
        return Err;
      }
      return Ok(Expected(id, entry.entryHash.value, entry.manifestHash, true));
    }
  }

  // ---- interleavings ----

  /**
   Loads in flight, by ticket; a restore or retry may carry any expectation, however stale. A restart keeps the registry
   only.
   */
  datatype World = World(s: State, inFlight: map<nat, Pending>)

  datatype Action =
    | Begin(ticket: nat, found: Found, expected: Option<Expected>, read: ReadOutcome, checks: bool)
    | Finish(ticket: nat, luck: Luck)
    | Disable(id: Id, read: ReadOutcome, wrote: bool)
    | JustRead(read: ReadOutcome)
    | SecretDeleted(ids: set<Id>)
    | Restart

  predicate Possible(w: World, a: Action) {
    match a
    case Begin(ticket, _, _, _, _) => ticket !in w.inFlight
    case Finish(ticket, _) => ticket in w.inFlight
    case _ => true
  }

  function After(w: World, a: Action): World {
    match a
    case Begin(ticket, found, expected, read, checks) =>
      World(AfterBegin(w.s, found, expected, read),
            if Begins(w.s, found, expected, read, checks) then w.inFlight[ticket := Pending(found, expected)] else w.inFlight)
    case Finish(ticket, luck) =>
      if ticket in w.inFlight then World(AfterCommit(w.s, w.inFlight[ticket], luck), w.inFlight - {ticket}) else w
    case Disable(id, read, wrote) => w.(s := AfterDisable(w.s, id, read, wrote))
    case JustRead(read) => w.(s := AfterRead(w.s, read))
    case SecretDeleted(ids) => w.(s := w.s.(loaded := w.s.loaded - ids))
    case Restart => World(w.s.(loaded := map[]), map[])
  }

  function AfterAll(w: World, run: seq<Action>): World
    decreases |run|
  {
    if run == [] then w else AfterAll(After(w, run[0]), run[1..])
  }

  predicate IsRun(w: World, run: seq<Action>)
    decreases |run|
  {
    run == [] || (Possible(w, run[0]) && IsRun(After(w, run[0]), run[1..]))
  }

  /** Each loaded plugin is enabled in the registry, under the manifest that is pinned there if one is. */
  ghost predicate LoadedIsEnabled(s: State) {
    forall id :: id in s.loaded ==>
      && id in s.registry && s.registry[id].enabled
      && (s.registry[id].manifestHash.Some? ==> s.registry[id].manifestHash.value == s.loaded[id].manifestHash)
  }

  /** A load in flight matches what it expects. */
  ghost predicate Checked(p: Pending) {
    p.expected.Some? ==>
      p.expected.value.id == p.found.id
      && (p.expected.value.manifestHash.Some? ==> p.expected.value.manifestHash.value == p.found.manifestHash)
  }

  ghost predicate Invariant(w: World) {
    LoadedIsEnabled(w.s) && forall t :: t in w.inFlight ==> Checked(w.inFlight[t])
  }

  /** A fresh load overlapped another of its id, wrote its own manifest's pin over the loaded one's, and then failed to activate. */
  predicate RepinsUnderLoaded(s: State, p: Pending, l: Luck) {
    && Activates(s, p, l) && !l.activated && p.expected.None?
    && p.found.id in s.loaded && s.loaded[p.found.id].manifestHash != p.found.manifestHash
  }

  /** A commit keeps the invariant in every case but that one. */
  lemma CommitKeepsUnless(s: State, p: Pending, l: Luck)
    requires LoadedIsEnabled(s) && Checked(p)
    ensures LoadedIsEnabled(AfterCommit(s, p, l)) <==> !RepinsUnderLoaded(s, p, l)
  {
    if RepinsUnderLoaded(s, p, l) {
      var s' := AfterCommit(s, p, l);
      assert p.found.id in s'.loaded && s'.registry[p.found.id].manifestHash == Some(p.found.manifestHash);
    }
  }

  predicate Repins(w: World, a: Action) {
    a.Finish? && a.ticket in w.inFlight && RepinsUnderLoaded(w.s, w.inFlight[a.ticket], a.luck)
  }

  predicate NeverRepins(w: World, run: seq<Action>)
    decreases |run|
  {
    run == [] || (!Repins(w, run[0]) && NeverRepins(After(w, run[0]), run[1..]))
  }

  lemma StepKeepsUnless(w: World, a: Action)
    requires Invariant(w) && Possible(w, a)
    ensures Invariant(After(w, a)) <==> !Repins(w, a)
  {
    match a
    case Finish(ticket, luck) => CommitKeepsUnless(w.s, w.inFlight[ticket], luck);
    case _ =>
  }

  /** Over every interleaving of loads, restores, enables, disables, deleted secrets and failing reads and writes. */
  lemma {:induction false} LoadedStaysEnabled(w: World, run: seq<Action>)
    requires Invariant(w) && IsRun(w, run) && NeverRepins(w, run)
    ensures Invariant(AfterAll(w, run))
    decreases |run|
  {
    hide Invariant, After, Possible, Repins;
    if run != [] {
      StepKeepsUnless(w, run[0]);
      LoadedStaysEnabled(After(w, run[0]), run[1..]);
    }
  }

  /** Two first loads of one id, its manifest rewritten between them: the second commit fails to activate, and the pin is not the loaded one's. */
  lemma OverlappingLoadsCanRepin()
    ensures var a, b := Found("p", "/p", "h1", "e", false), Found("p", "/p", "h2", "e", false);
            var run := [Begin(0, a, None, Good, true), Begin(1, b, None, Good, true),
                        Finish(0, Luck(true, Good, true, true)), Finish(1, Luck(true, Good, true, false))];
            var w := World(State(map[], map[]), map[]);
            IsRun(w, run) && Invariant(w) && !Invariant(AfterAll(w, run))
  {
    var a, b := Found("p", "/p", "h1", "e", false), Found("p", "/p", "h2", "e", false);
    var a1, a2, a3, a4 := Begin(0, a, None, Good, true), Begin(1, b, None, Good, true),
                          Finish(0, Luck(true, Good, true, true)), Finish(1, Luck(true, Good, true, false));
    var w := World(State(map[], map[]), map[]);
    var w1 := After(w, a1);
    var w2 := After(w1, a2);
    var w3 := After(w2, a3);
    var w4 := After(w3, a4);
    assert w2.inFlight[0] == Pending(a, None) && w3.inFlight[1] == Pending(b, None);
    assert w3.s.loaded["p"].manifestHash == "h1" && w4.s.loaded == w3.s.loaded;
    assert "p" in w4.s.loaded && w4.s.registry["p"].manifestHash == Some("h2");
    FourSteps(w, a1, a2, a3, a4);
  }

  lemma FourSteps(w: World, a: Action, b: Action, c: Action, d: Action)
    ensures AfterAll(w, [a, b, c, d]) == After(After(After(After(w, a), b), c), d)
    ensures IsRun(w, [a, b, c, d]) <==> Possible(w, a) && Possible(After(w, a), b) && Possible(After(After(w, a), b), c)
                                        && Possible(After(After(After(w, a), b), c), d)
  {
    hide After, Possible;
    FirstStep(w, a, [b, c, d]);
    FirstStep(After(w, a), b, [c, d]);
    FirstStep(After(After(w, a), b), c, [d]);
    FirstStep(After(After(After(w, a), b), c), d, []);
    assert [a] + [b, c, d] == [a, b, c, d] && [b] + [c, d] == [b, c, d] && [c] + [d] == [c, d] && [d] + [] == [d];
  }

  lemma FirstStep(w: World, a: Action, rest: seq<Action>)
    ensures AfterAll(w, [a] + rest) == AfterAll(After(w, a), rest)
    ensures IsRun(w, [a] + rest) <==> Possible(w, a) && IsRun(After(w, a), rest)
  {
    hide After, Possible;
    assert ([a] + rest)[0] == a && ([a] + rest)[1..] == rest;
  }

  // ---- a restore, from its start to its commit ----

  predicate NotFinished(run: seq<Action>, ticket: nat) {
    forall a :: a in run ==> !a.Restart? && !(a.Finish? && a.ticket == ticket)
  }

  lemma {:induction false} StaysInFlight(w: World, run: seq<Action>, ticket: nat)
    requires ticket in w.inFlight && IsRun(w, run) && NotFinished(run, ticket)
    ensures ticket in AfterAll(w, run).inFlight && AfterAll(w, run).inFlight[ticket] == w.inFlight[ticket]
    decreases |run|
  {
    hide AfterBegin, Begins, AfterCommit, AfterDisable, AfterRead;
    if run != [] {
      assert run[0] in run && (forall a :: a in run[1..] ==> a in run);
      StaysInFlight(After(w, run[0]), run[1..], ticket);
    }
  }

  /**
   A restore, from its start over whatever happens within its import to its commit: it activates exactly when its import,
   its read and its activation succeed and the plugin is then enabled under the path and hashes it read at its start.
   Otherwise nothing is activated, and only invalid registry contents change what is loaded.
   */
  lemma RestoreActivatesExactlyWhen(w: World, ticket: nat, found: Found, x: Expected, run: seq<Action>, l: Luck)
    requires ticket !in w.inFlight && !x.enable && Begins(w.s, found, Some(x), Good, true)
    requires var w1 := After(w, Begin(ticket, found, Some(x), Good, true)); IsRun(w1, run) && NotFinished(run, ticket)
    ensures var w2 := AfterAll(After(w, Begin(ticket, found, Some(x), Good, true)), run);
            var live := found.id in w2.s.registry && w2.s.registry[found.id].enabled && w2.s.registry[found.id].path == found.path
                        && w2.s.registry[found.id].entryHash == Some(x.entryHash) && w2.s.registry[found.id].manifestHash == x.manifestHash;
            && Possible(w2, Finish(ticket, l))
            && var s := After(w2, Finish(ticket, l)).s;
               && s.registry == w2.s.registry
               && s.loaded == if l.imported && l.read.Invalid? then map[]
                              else if l.imported && l.read.Good? && l.activated && live
                              then w2.s.loaded[found.id := Loaded(found.path, found.manifestHash)] else w2.s.loaded
  {
    hide IsRun, AfterAll;
    var w1 := After(w, Begin(ticket, found, Some(x), Good, true));
    assert w1.inFlight[ticket] == Pending(found, Some(x));
    StaysInFlight(w1, run, ticket);
  }

  // ---- re-pinned during the import ----

  /** The pins an entry holds are not those the load expects. */
  predicate Mismatched(s: State, p: Pending)
    requires p.expected.Some?
  {
    !Unchanged(Current(s, p.found.id), p)
  }

  /** The action writes just the pins the load expects: a fresh load commits them, or a disable pins the loaded manifest. */
  predicate WritesPinsBack(w: World, a: Action, p: Pending)
    requires p.expected.Some?
  {
    var id := p.found.id;
    match a
    case Finish(ticket, l) =>
      && ticket in w.inFlight
      && var q := w.inFlight[ticket];
         && q.expected.None? && q.found.id == id && Activates(w.s, q, l)
         && q.found.path == p.found.path && q.found.entryHash == p.expected.value.entryHash
         && p.expected.value.manifestHash == Some(q.found.manifestHash)
    case Disable(i, read, wrote) =>
      && i == id && read.Good? && wrote && id in w.s.registry && id in w.s.loaded
      && w.s.registry[id].path == p.found.path && w.s.registry[id].entryHash == Some(p.expected.value.entryHash)
      && p.expected.value.manifestHash == Some(w.s.loaded[id].manifestHash)
    case _ => false
  }

  predicate NoneWritesBack(w: World, run: seq<Action>, p: Pending)
    requires p.expected.Some?
    decreases |run|
  {
    run == [] || (!WritesPinsBack(w, run[0], p) && NoneWritesBack(After(w, run[0]), run[1..], p))
  }

  /** Once they differ, one action makes them agree again exactly when it is one of these. */
  lemma MismatchStays(w: World, a: Action, p: Pending)
    requires p.expected.Some? && Mismatched(w.s, p)
    ensures Mismatched(After(w, a).s, p) <==> !WritesPinsBack(w, a, p)
  {
  }

  /**
   Once a plugin is re-pinned, a restore of it under way with the old path or hashes activates nothing, however long the run
   goes on and whatever else is loaded, enabled or disabled, until a fresh load or a disable writes just those pins back.
   */
  lemma {:induction false} RepinnedIsNeverRestored(w: World, run: seq<Action>, ticket: nat, p: Pending, l: Luck)
    requires p.expected.Some? && Mismatched(w.s, p) && NoneWritesBack(w, run, p)
    ensures var w' := AfterAll(w, run);
            && Mismatched(w'.s, p) && !Activates(w'.s, p, l)
            && (ticket in w'.inFlight && w'.inFlight[ticket] == p ==>
                  forall id :: id in After(w', Finish(ticket, l)).s.loaded ==>
                    id in w'.s.loaded && After(w', Finish(ticket, l)).s.loaded[id] == w'.s.loaded[id])
    decreases |run|
  {
    hide WritesPinsBack;
    if run != [] {
      MismatchStays(w, run[0], p);
      hide After, Mismatched;
      RepinnedIsNeverRestored(After(w, run[0]), run[1..], ticket, p, l);
    }
  }

  // ---- disabled during the import ----

  /** An action that enables the plugin: the commit of a fresh load or of an enable of it. */
  predicate Enables(w: World, a: Action, id: Id) {
    a.Finish? && a.ticket in w.inFlight && w.inFlight[a.ticket].found.id == id && Writes(w.inFlight[a.ticket])
  }

  predicate NoneEnables(w: World, run: seq<Action>, id: Id)
    decreases |run|
  {
    run == [] || (!Enables(w, run[0], id) && NoneEnables(After(w, run[0]), run[1..], id))
  }

  predicate IsOff(s: State, id: Id) { id in s.registry && !s.registry[id].enabled && id !in s.loaded }

  lemma OffStays(w: World, a: Action, id: Id)
    requires IsOff(w.s, id) && !Enables(w, a, id)
    ensures IsOff(After(w, a).s, id)
  {
  }

  /**
   Once disabled, a plugin stays off, whatever restores of it were being imported and however stale what they
   expect, until a fresh load or an enable of it commits.
   */
  lemma {:induction false} DisabledIsNeverRestored(w: World, run: seq<Action>, id: Id)
    requires IsOff(w.s, id) && NoneEnables(w, run, id)
    ensures IsOff(AfterAll(w, run).s, id)
    decreases |run|
  {
    hide After, Enables, IsOff;
    if run != [] {
      OffStays(w, run[0], id);
      DisabledIsNeverRestored(After(w, run[0]), run[1..], id);
    }
  }

  const P: Found := Found("p", "/p", "h", "e", false)
  const FINE: Luck := Luck(true, Good, true, true)

  /** Loaded, and after a restart restored; disabled and enabled again within the restore's import, though the enable fails at last. */
  const RACE: seq<Action> := [
    Begin(0, P, None, Good, true), Finish(0, FINE), Restart,
    Begin(1, P, Some(Expected("p", "e", Some("h"), false)), Good, true),
    Disable("p", Good, true),
    Begin(2, P, Some(Expected("p", "e", Some("h"), true)), Good, true), Finish(2, FINE.(activated := false))]

  /** But disabled and enabled again within one import, a restore goes through: nothing at its commit tells it apart. */
  lemma DisableThenEnableIsNotSeen()
    ensures var w := AfterAll(World(State(map[], map[]), map[]), RACE);
            && IsRun(World(State(map[], map[]), map[]), RACE + [Finish(1, FINE)])
            && "p" !in w.s.loaded && "p" in After(w, Finish(1, FINE)).s.loaded
  {
    var w0 := World(State(map[], map[]), map[]);
    var w3 := AfterAll(w0, RACE[..3]);
    RestoredOnce(w0);
    FirstSteps(w0, RACE[..3], RACE[3..] + [Finish(1, FINE)]);
    FirstSteps(w0, RACE[..3], RACE[3..]);
    assert RACE[..3] + RACE[3..] == RACE;
    assert RACE[..3] + (RACE[3..] + [Finish(1, FINE)]) == RACE + [Finish(1, FINE)];
    var a, b, c, d, e := RACE[3], RACE[4], RACE[5], RACE[6], Finish(1, FINE);
    var w4 := After(w3, a);
    var w5 := After(w4, b);
    var w6 := After(w5, c);
    var w7 := After(w6, d);
    RaceEnds(w3, w4, w5, w6, w7);
    hide After, Possible;
    assert RACE[3..] == [a, b, c, d];
    FourSteps(w3, a, b, c, d);
    FirstSteps(w3, [a, b, c, d], [e]);
    FirstStep(w7, e, []);
    assert [e] + [] == [e];
  }

  lemma RestoredOnce(w: World)
    requires w == World(State(map[], map[]), map[])
    ensures IsRun(w, RACE[..3])
    ensures AfterAll(w, RACE[..3]) == World(State(map["p" := Entry(true, "/p", Some("e"), Some("h"), Some("p"))], map[]), map[])
  {
    var a, b, c := RACE[0], RACE[1], RACE[2];
    var w1 := After(w, a);
    assert w1.inFlight[0] == Pending(P, None);
    var w2 := After(w1, b);
    var w3 := After(w2, c);
    assert w3 == World(State(map["p" := Entry(true, "/p", Some("e"), Some("h"), Some("p"))], map[]), map[]);
    assert Possible(w, a) && Possible(w1, b) && Possible(w2, c);
    hide After, Possible;
    FirstStep(w, a, [b, c]);
    FirstStep(w1, b, [c]);
    FirstStep(w2, c, []);
    assert [a] + [b, c] == RACE[..3] && [b] + [c] == [b, c] && [c] + [] == [c];
  }

  lemma RaceEnds(w3: World, w4: World, w5: World, w6: World, w7: World)
    requires w3 == World(State(map["p" := Entry(true, "/p", Some("e"), Some("h"), Some("p"))], map[]), map[])
    requires w4 == After(w3, RACE[3]) && w5 == After(w4, RACE[4]) && w6 == After(w5, RACE[5]) && w7 == After(w6, RACE[6])
    ensures Possible(w3, RACE[3]) && Possible(w4, RACE[4]) && Possible(w5, RACE[5]) && Possible(w6, RACE[6])
    ensures Possible(w7, Finish(1, FINE)) && "p" !in w7.s.loaded && "p" in After(w7, Finish(1, FINE)).s.loaded
  {
    var old3 := Entry(true, "/p", Some("e"), Some("h"), Some("p"));
    assert w4.inFlight == map[1 := Pending(P, Some(Expected("p", "e", Some("h"), false)))] && w4.s == w3.s;
    assert w5.s == State(map["p" := old3.(enabled := false)], map[]) && w5.inFlight == w4.inFlight;
    assert w6.s == w5.s && w6.inFlight == w5.inFlight[2 := Pending(P, Some(Expected("p", "e", Some("h"), true)))];
    assert w7.s == State(map["p" := old3], map[]) && w7.inFlight == w5.inFlight;
  }

  lemma {:induction false} FirstSteps(w: World, run: seq<Action>, rest: seq<Action>)
    ensures AfterAll(w, run + rest) == AfterAll(AfterAll(w, run), rest)
    ensures IsRun(w, run + rest) <==> IsRun(w, run) && IsRun(AfterAll(w, run), rest)
    decreases |run|
  {
    hide After, Possible;
    if run == [] {
      assert run + rest == rest;
    } else {
      assert (run + rest)[0] == run[0] && (run + rest)[1..] == run[1..] + rest;
      FirstSteps(After(w, run[0]), run[1..], rest);
    }
  }

  // ---- loads, on what is pinned ----

  /** The hash a load must find: the one it expects, if it expects one, else the one registered under its id. */
  predicate Pinned(s: State, found: Found, expected: Option<Expected>, h: string) {
    if expected.Some? && expected.value.manifestHash.Some? then expected.value.manifestHash == Some(h)
    else found.id in s.registry && s.registry[found.id].manifestHash == Some(h)
  }

  /**
   A load is let in to its import exactly when: the registry reads well and the other checks pass, the plugin is not loaded,
   it is the one expected if one is, its manifest is the pinned one if any is pinned, and something is pinned if a bundle
   with contributions is expected.
   */
  lemma LoadBeginsExactly(w: World, ticket: nat, found: Found, expected: Option<Expected>, read: ReadOutcome, checks: bool)
    requires ticket !in w.inFlight
    ensures ticket in After(w, Begin(ticket, found, expected, read, checks)).inFlight <==>
            && read.Good? && checks && found.id !in w.s.loaded && (expected.Some? ==> expected.value.id == found.id)
            && (forall h :: Pinned(w.s, found, expected, h) ==> h == found.manifestHash)
            && (expected.Some? && found.contributes ==> exists h :: Pinned(w.s, found, expected, h))
    ensures ticket in After(w, Begin(ticket, found, expected, read, checks)).inFlight ==>
              After(w, Begin(ticket, found, expected, read, checks)).inFlight[ticket] == Pending(found, expected)
  {
    var pin := PinFor(w.s, found, expected);
    forall h ensures Pinned(w.s, found, expected, h) <==> pin == Some(h) {}
    if pin.Some? { assert Pinned(w.s, found, expected, pin.value); }
  }

  /** A manifest other than the registered one never gets as far as its import, whatever else is expected or not. */
  lemma TamperedManifestNeverLoads(w: World, ticket: nat, found: Found, expected: Option<Expected>, read: ReadOutcome, checks: bool)
    requires found.id in w.s.registry && w.s.registry[found.id].manifestHash.Some?
    requires w.s.registry[found.id].manifestHash.value != found.manifestHash
    requires expected.Some? ==> expected.value.manifestHash.None? || expected.value.manifestHash == w.s.registry[found.id].manifestHash
    ensures After(w, Begin(ticket, found, expected, read, checks)).inFlight == w.inFlight
  {
  }

  /** A first load's commit: the plugin is registered as enabled under its own path and hashes, and then loaded. */
  lemma FreshLoadPins(w: World, ticket: nat, l: Luck)
    requires ticket in w.inFlight && w.inFlight[ticket].expected.None?
    ensures var f, s := w.inFlight[ticket].found, After(w, Finish(ticket, l)).s;
            if l.imported && l.read.Good? && l.wrote then
              && s.registry == w.s.registry[f.id := Entry(true, f.path, Some(f.entryHash), Some(f.manifestHash), Some(f.id))]
              && s.loaded == if l.activated then w.s.loaded[f.id := Loaded(f.path, f.manifestHash)] else w.s.loaded
            else s.registry == w.s.registry && s.loaded == if l.imported && l.read.Invalid? then map[] else w.s.loaded
  {
  }

  /**
   An enable's commit: it goes through exactly when the plugin is still disabled under the path and hashes the enable read,
   and then changes nothing of the entry but that it is enabled.
   */
  lemma EnableGoesThroughExactly(w: World, ticket: nat, l: Luck)
    requires ticket in w.inFlight && w.inFlight[ticket].expected.Some? && w.inFlight[ticket].expected.value.enable
    ensures var f, x, s := w.inFlight[ticket].found, w.inFlight[ticket].expected.value, After(w, Finish(ticket, l)).s;
            var same := f.id in w.s.registry && !w.s.registry[f.id].enabled && w.s.registry[f.id].path == f.path
                        && w.s.registry[f.id].entryHash == Some(x.entryHash) && w.s.registry[f.id].manifestHash == x.manifestHash;
            if l.imported && l.read.Good? && l.wrote && same then
              && f.id in s.registry && s.registry[f.id] == w.s.registry[f.id].(enabled := true, manifestId := Some(f.id))
              && (forall i :: i != f.id ==> (i in s.registry <==> i in w.s.registry) && (i in s.registry ==> s.registry[i] == w.s.registry[i]))
              && s.loaded == if l.activated then w.s.loaded[f.id := Loaded(f.path, f.manifestHash)] else w.s.loaded
            else s.registry == w.s.registry && s.loaded == if l.imported && l.read.Invalid? then map[] else w.s.loaded
  {
  }

  /**
   A disable that is written: the entry is disabled under its own path and entry hash and, if the plugin was loaded, under the
   loaded manifest's hash; the plugin is no longer loaded; no other entry or plugin changes.
   */
  lemma DisablePins(s: State, id: Id)
    requires id in s.registry
    ensures var s' := AfterDisable(s, id, Good, true);
            && id in s'.registry && !s'.registry[id].enabled
            && s'.registry[id].path == s.registry[id].path && s'.registry[id].entryHash == s.registry[id].entryHash
            && s'.registry[id].manifestHash == (if id in s.loaded then Some(s.loaded[id].manifestHash) else s.registry[id].manifestHash)
            && s'.registry[id].manifestId == (if id in s.loaded then Some(id) else s.registry[id].manifestId)
            && id !in s'.loaded
            && (forall i :: i != id ==> (i in s'.registry <==> i in s.registry) && (i in s.registry ==> s'.registry[i] == s.registry[i]))
            && (forall i :: i != id ==> (i in s'.loaded <==> i in s.loaded) && (i in s.loaded ==> s'.loaded[i] == s.loaded[i]))
  {
  }

  /** So what was loaded when it was disabled is what an enable loads: any other manifest is refused before its import. */
  lemma OnlyTheDisabledManifestIsEnabled(w: World, id: Id, ticket: nat, found: Found, x: Expected, read: ReadOutcome, checks: bool)
    requires id in w.s.registry && id in w.s.loaded && ticket !in w.inFlight
    requires var w1 := After(w, Disable(id, Good, true));
             found.id == id && x == Expected(id, x.entryHash, w1.s.registry[id].manifestHash, true)
    ensures var w1 := After(w, Disable(id, Good, true));
            ticket in After(w1, Begin(ticket, found, Some(x), read, checks)).inFlight ==> found.manifestHash == w.s.loaded[id].manifestHash
  {
  }

  // ---- failures ----

  /** A disable whose read or write fails disables nothing; invalid contents unload everything instead. */
  lemma FailedDisableChangesNothing(s: State, id: Id, read: ReadOutcome, wrote: bool)
    requires !read.Good? || !wrote
    ensures AfterDisable(s, id, read, wrote).registry == s.registry
    ensures !read.Invalid? ==> AfterDisable(s, id, read, wrote) == s
    ensures read.Invalid? ==> AfterDisable(s, id, read, wrote).loaded == map[]
  {
  }

  /** So for a commit: an unreachable registry or a failed write leaves registry and loaded plugins as they were. */
  lemma FailedCommitChangesNothing(s: State, p: Pending, l: Luck)
    requires l.read.Unavailable? || (l.read.Good? && Writes(p) && !l.wrote)
    ensures AfterCommit(s, p, l) == s
  {
  }
}
