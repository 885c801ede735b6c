/**
 Restore undoes move: the bytes a task deleted come back to their path, whatever was moved,
 restored, closed, swept or written elsewhere in between.
 */
module TrashRestore {
  import opened Wrappers
  import opened TaskTrash
  import opened TrashTheorems

  /** The scope's manifest is believed, and the last of its entries for p is the i-th, alone in naming a file with this text. */
  ghost predicate KeptAt(st: State, scope: string, p: Path, name: string, text: string, i: nat) {
    && !Rebuilds(ManifestOf(st, scope))
    && HoldsAt(Stored(ManifestOf(st, scope)), p, name, i)
    && Trashed(scope, name) in st.files && st.files[Trashed(scope, name)] == text
  }

  ghost predicate HoldsAt(entries: seq<TaskEntry>, p: Path, name: string, i: nat) {
    && i < |entries| && entries[i].original == Some(p) && entries[i].trashed == name
    && (forall j :: i < j < |entries| ==> !Matches(entries[j], Full(p)))
    && (forall j :: 0 <= j < |entries| && j != i ==> entries[j].trashed != name)
  }

  ghost predicate Kept(st: State, scope: string, p: Path, name: string, text: string) {
    exists i: nat :: KeptAt(st, scope, p, name, text, i)
  }

  /**
   An action that leaves p alone: it does not move or write p, name it to restore in this scope, or damage the scope's
   manifest. Manifest writes of other files may be skipped, in this scope too.
   */
  predicate Elsewhere(a: Action, scope: string, p: Path, name: string) {
    match a
    case Move(s, q, _, _, _, w) => q != p && (s == scope ==> !w.Torn?)
    case Restore(s, ref, _, _, w) => s != scope || (ref != Full(p) && ref != Bare(p.base) && ref != Bare(name) && !w.Torn?)
    case Corrupt(s) => s != scope
    case Damage(s, _) => s != scope
    case Write(q, _) => q != p
    case Remove(q) => q != p
    case _ => true
  }

  /** Entries written to the manifest, with the file still there, keep p restorable. */
  lemma KeptIn(st: State, scope: string, p: Path, name: string, text: string, entries: seq<TaskEntry>, i: nat)
    requires ManifestOf(st, scope) == Written(entries) && HoldsAt(entries, p, name, i)
    requires Trashed(scope, name) in st.files && st.files[Trashed(scope, name)] == text
    ensures Kept(st, scope, p, name, text)
  {
    hide HoldsAt;
    WrittenReads(entries, []);
    assert i < |entries| by { HeldIsIn(entries, p, name, i); }
    assert KeptAt(st, scope, p, name, text, i);
  }

  lemma HeldIsIn(entries: seq<TaskEntry>, p: Path, name: string, i: nat)
    requires HoldsAt(entries, p, name, i)
    ensures i < |entries|
  {
  }

  /** Nothing of the scope changed that p depends on. */
  lemma KeptFrame(st: State, st': State, scope: string, p: Path, name: string, text: string)
    requires Kept(st, scope, p, name, text) && ManifestOf(st', scope) == ManifestOf(st, scope)
    requires Trashed(scope, name) in st'.files && st'.files[Trashed(scope, name)] == st.files[Trashed(scope, name)]
    ensures Kept(st', scope, p, name, text)
  {
    hide HoldsAt, Rebuilds;
    var i: nat :| KeptAt(st, scope, p, name, text, i);
    assert KeptAt(st', scope, p, name, text, i);
  }

  lemma KeptIsThere(st: State, scope: string, p: Path, name: string, text: string)
    requires Kept(st, scope, p, name, text)
    ensures scope in st.scopes && Trashed(scope, name) in st.files && st.files[Trashed(scope, name)] == text
  {
  }

  /** A new entry for another path and under another name. */
  lemma HoldsAfterAppend(entries: seq<TaskEntry>, e: TaskEntry, p: Path, name: string, i: nat)
    requires HoldsAt(entries, p, name, i) && e.original.Some? && e.original.value != p && e.trashed != name
    ensures HoldsAt(entries + [e], p, name, i)
  {
    hide StripStamp;
    var all := entries + [e];
    forall j | i < j < |all| ensures !Matches(all[j], Full(p)) {
      assert j < |entries| ==> all[j] == entries[j];
    }
    forall j | 0 <= j < |all| && j != i ensures all[j].trashed != name {
      assert j < |entries| ==> all[j] == entries[j];
    }
  }

  lemma MoveKeeps(st: State, a: Action, scope: string, p: Path, name: string, text: string)
    requires Kept(st, scope, p, name, text) && Enabled(st, a) && a.Move? && Elsewhere(a, scope, p, name)
    ensures Kept(Moved(st, a.scope, a.path, a.listing, a.now, a.n, a.w), scope, p, name, text)
  {
    hide IsListing, TrashName, HoldsAt, Rebuilds, Read, Written;
    var st' := Moved(st, a.scope, a.path, a.listing, a.now, a.n, a.w);
    KeptIsThere(st, scope, p, name, text);
    if a.scope == scope && a.w.Complete? {
      var i: nat :| KeptAt(st, scope, p, name, text, i);
      ReadIsStored(ManifestOf(st, scope), a.listing);
      var entries := Read(ManifestOf(st, scope), a.listing);
      var e := TaskEntry(Some(a.path), TrashName(a.path.base, a.now, a.n), a.now);
      HoldsAfterAppend(entries, e, p, name, i);
      KeptIn(st', scope, p, name, text, entries + [e], i);
    } else {
      KeptFrame(st, st', scope, p, name, text);
    }
  }

  /** The entry a restore takes is not p's, when the reference does not name p. */
  lemma TakesAnother(entries: seq<TaskEntry>, i: nat, k: nat, p: Path, name: string, a: Action, scope: string)
    requires HoldsAt(entries, p, name, i)
    requires a.Restore? && a.scope == scope && Elsewhere(a, scope, p, name)
    requires LastMatch(entries, a.ref) == Some(k)
    ensures k < |entries| && k != i && entries[k].trashed != name
  {
  }

  /** Taking another entry out leaves p's the last of its own. */
  lemma HoldsAfterTake(entries: seq<TaskEntry>, p: Path, name: string, i: nat, k: nat) returns (i': nat)
    requires HoldsAt(entries, p, name, i) && k < |entries| && k != i
    ensures HoldsAt(entries[..k] + entries[k + 1..], p, name, i')
  {
    hide Matches;
    var left := entries[..k] + entries[k + 1..];
    i' := if i < k then i else i - 1;
    forall j | 0 <= j < |left| ensures left[j] == entries[if j < k then j else j + 1] {}
    forall j | i' < j < |left| ensures !Matches(left[j], Full(p)) {
      assert left[j] == entries[if j < k then j else j + 1];
    }
  }

  lemma RestoreKeeps(st: State, a: Action, scope: string, p: Path, name: string, text: string)
    requires Kept(st, scope, p, name, text) && a.Restore? && a.scope == scope && Elsewhere(a, scope, p, name)
    ensures Kept(After(st, a), scope, p, name, text)
  {
    hide IsListing, StripStamp, Matches, LastMatch, Elsewhere, Target, HoldsAt, Rebuilds, Read, Written;
    NotTorn(a, scope, p, name);
    if RestoreOutcome(st, scope, a.ref, a.listing).Restored? {
      var i: nat :| KeptAt(st, scope, p, name, text, i);
      ReadIsStored(ManifestOf(st, scope), a.listing);
      var entries := Read(ManifestOf(st, scope), a.listing);
      var k := LastMatch(entries, a.ref).value;
      TakesAnother(entries, i, k, p, name, a, scope);
      if a.w.Complete? {
        var i' := HoldsAfterTake(entries, p, name, i, k);
        KeptIn(After(st, a), scope, p, name, text, entries[..k] + entries[k + 1..], i');
      } else {
        KeptFrame(st, After(st, a), scope, p, name, text);
      }
    }
  }

  lemma NotTorn(a: Action, scope: string, p: Path, name: string)
    requires a.Restore? && a.scope == scope && Elsewhere(a, scope, p, name)
    ensures !a.w.Torn?
  {
  }

  lemma RestoreElsewhereKeeps(st: State, a: Action, scope: string, p: Path, name: string, text: string)
    requires Kept(st, scope, p, name, text) && a.Restore? && a.scope != scope
    ensures Kept(After(st, a), scope, p, name, text)
  {
    hide Kept, Read, Written, LastMatch, Matches, Target;
    KeptIsThere(st, scope, p, name, text);
    KeptFrame(st, After(st, a), scope, p, name, text);
  }

  lemma SweepKeeps(st: State, now: nat, exclude: Option<string>, scope: string, p: Path, name: string, text: string)
    requires Kept(st, scope, p, name, text) && !Sweeps(st, scope, now, exclude)
    ensures Kept(Swept(st, now, exclude), scope, p, name, text)
  {
    hide Kept, Expired;
    KeptIsThere(st, scope, p, name, text);
    KeptFrame(st, Swept(st, now, exclude), scope, p, name, text);
  }

  lemma OtherKeeps(st: State, a: Action, scope: string, p: Path, name: string, text: string)
    requires Kept(st, scope, p, name, text) && Elsewhere(a, scope, p, name)
    requires a.Close? || a.Write? || a.Remove? || a.Corrupt? || a.Damage?
    ensures Kept(After(st, a), scope, p, name, text)
  {
    hide Kept, Damaged;
    KeptIsThere(st, scope, p, name, text);
    KeptFrame(st, After(st, a), scope, p, name, text);
  }

  lemma StepKeeps(st: State, a: Action, scope: string, p: Path, name: string, text: string, t0: int, window: int)
    requires Kept(st, scope, p, name, text) && Enabled(st, a) && Elsewhere(a, scope, p, name)
    requires Fresh(st, scope, t0, window) && Within(a, scope, t0, window) && window <= RETENTION_MS
    ensures Kept(After(st, a), scope, p, name, text)
  {
    hide Kept, Moved, AfterRestore, Swept, Closed, IsListing, FirstFree;
    match a
    case Move(s, q, listing, now, n, w) =>
      MoveKeeps(st, a, scope, p, name, text);
      if w.Complete? {
        FreshNotSwept(st, a, scope, t0, window);
        SweepKeeps(Moved(st, s, q, listing, now, n, w), now, Some(s), scope, p, name, text);
      }
    case Restore(s, ref, listing, now, w) =>
      if s == scope { RestoreKeeps(st, a, scope, p, name, text); } else { RestoreElsewhereKeeps(st, a, scope, p, name, text); }
    case Sweep(now) => SweepKeeps(st, now, None, scope, p, name, text);
    case _ => OtherKeeps(st, a, scope, p, name, text);
  }

  lemma FreshNotSwept(st: State, a: Action, scope: string, t0: int, window: int)
    requires a.Move? && Live(a.path) in st.files
    requires Fresh(st, scope, t0, window) && Within(a, scope, t0, window) && window <= RETENTION_MS
    ensures !Sweeps(Moved(st, a.scope, a.path, a.listing, a.now, a.n, a.w), scope, a.now, Some(a.scope))
  {
    hide Read, Written, TrashName;
  }

  lemma {:induction false} RunKeeps(st: State, run: seq<Action>, scope: string, p: Path, name: string, text: string, t0: int, window: int)
    requires Kept(st, scope, p, name, text) && IsRun(st, run)
    requires Fresh(st, scope, t0, window) && window <= RETENTION_MS
    requires forall a :: a in run ==> Elsewhere(a, scope, p, name) && Within(a, scope, t0, window)
    ensures Kept(AfterAll(st, run), scope, p, name, text)
    decreases |run|
  {
    hide Kept, After, Enabled, Fresh, Within, Elsewhere;
    if run != [] {
      assert run[0] in run && (forall a :: a in run[1..] ==> a in run);
      StepKeeps(st, run[0], scope, p, name, text, t0, window);
      StepStaysFresh(st, run[0], scope, t0, window);
      RunKeeps(After(st, run[0]), run[1..], scope, p, name, text, t0, window);
    }
  }

  /** The entry just added is the last, and no other names its file: each names one that was there before. */
  lemma NewestHolds(st: State, scope: string, entries: seq<TaskEntry>, e: TaskEntry, p: Path)
    requires Faithful(entries, st, scope) && Trashed(scope, e.trashed) !in st.files && e.original == Some(p)
    ensures HoldsAt(entries + [e], p, e.trashed, |entries|)
  {
    hide Matches;
    var all := entries + [e];
    forall j | 0 <= j < |all| && j != |entries| ensures all[j].trashed != e.trashed {
      assert all[j] == entries[j];
    }
  }

  lemma MoveMakesKept(st: State, a: Action)
    requires a.Move? && a.w.Complete? && Enabled(st, a) && Honest(st, a.scope)
    ensures Kept(After(st, a), a.scope, a.path, TrashName(a.path.base, a.now, a.n), st.files[Live(a.path)])
  {
    hide IsListing, TrashName, Read, Honest, Faithful, Swept, Written;
    var name, st' := TrashName(a.path.base, a.now, a.n), Moved(st, a.scope, a.path, a.listing, a.now, a.n, a.w);
    var entries := Read(ManifestOf(st, a.scope), a.listing);
    ReadIsFaithful(st, a.scope, a.listing);
    NewestHolds(st, a.scope, entries, TaskEntry(Some(a.path), name, a.now), a.path);
    KeptIn(st', a.scope, a.path, name, st.files[Live(a.path)], entries + [TaskEntry(Some(a.path), name, a.now)], |entries|);
    SweepKeeps(st', a.now, Some(a.scope), a.scope, a.path, name, st.files[Live(a.path)]);
  }

  lemma KeptRestores(st: State, scope: string, p: Path, name: string, text: string, listing: seq<Listed>, now: nat, w: ManifestWrite)
    requires Kept(st, scope, p, name, text) && Live(p) !in st.files
    ensures RestoreOutcome(st, scope, Full(p), listing) == Restored(p)
    ensures var st' := AfterRestore(st, scope, Full(p), listing, now, w);
            Live(p) in st'.files && st'.files[Live(p)] == text && Trashed(scope, name) !in st'.files
  {
    var i: nat :| KeptAt(st, scope, p, name, text, i);
    ReadIsStored(ManifestOf(st, scope), listing);
    hide Rebuilds, Read, Stored, Written;
    assert LastMatch(Read(ManifestOf(st, scope), listing), Full(p)) == Some(i);
  }

  /**
   Delete and then restore by path: if nothing sits at the path by then, the identical bytes come back, no matter what
   happened to other paths and in other scopes in the meantime, for 24 hours after the delete and for 30 days while the
   scope is not closed; and the restore says so unless its own manifest write fails.
   */
  lemma RestoreUndoesMove(st: State, a: Action, run: seq<Action>, listing: seq<Listed>, now: nat, w: ManifestWrite, window: int)
    requires a.Move? && a.w.Complete? && Enabled(st, a) && Honest(st, a.scope)
    requires IsRun(After(st, a), run) && window <= RETENTION_MS
    requires forall b :: b in run ==>
      Elsewhere(b, a.scope, a.path, TrashName(a.path.base, a.now, a.n)) && Within(b, a.scope, a.now, window)
    requires Live(a.path) !in AfterAll(After(st, a), run).files
    ensures var end := AfterAll(After(st, a), run);
            && RestoreAnswer(end, a.scope, Full(a.path), listing, w) == (if w.Complete? then Restored(a.path) else WriteFailed)
            && var restored := AfterRestore(end, a.scope, Full(a.path), listing, now, w);
               Live(a.path) in restored.files && restored.files[Live(a.path)] == st.files[Live(a.path)]
  {
    hide Honest, Kept, After, Fresh, Within, Elsewhere, RestoreOutcome, AfterRestore;
    var name, text := TrashName(a.path.base, a.now, a.n), st.files[Live(a.path)];
    MoveMakesKept(st, a);
    MoveIsFresh(st, a, window);
    RunKeeps(After(st, a), run, a.scope, a.path, name, text, a.now, window);
    KeptRestores(AfterAll(After(st, a), run), a.scope, a.path, name, text, listing, now, w);
  }
}
