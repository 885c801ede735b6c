/**
 What a restore answers and does, and what a move and a sweep leave, told from the manifest's entries and the files alone.
 */
module TrashFields {
  import opened Wrappers
  import opened Text
  import opened TaskTrash
  import opened TrashTheorems

  // ---- names ----

  predicate Number(t: string) { t != "" && forall i :: 0 <= i < |t| ==> '0' <= t[i] <= '9' }

  /** The stamp a trashed name carries: a time, and a counter if the name was taken. */
  ghost predicate Stamps(t: string) {
    Number(t) || exists a: string, b: string :: Number(a) && Number(b) && t == a + "-" + b
  }

  lemma NumberMeans(t: string)
    ensures Number(t) <==> t != "" && AllDigits(t)
  {
    assert AllDigits(t) <==> forall i :: 0 <= i < |t| ==> IsDigit(t[i]);
  }

  lemma StampMeans(t: string)
    ensures IsStamp(t) <==> Stamps(t)
  {
    NumberMeans(t);
    if IsStamp(t) && !Number(t) {
      var k :| 0 < k < |t| - 1 && t[k] == '-' && AllDigits(t[..k]) && AllDigits(t[k + 1..]);
      NumberMeans(t[..k]);
      NumberMeans(t[k + 1..]);
      assert t == t[..k] + "-" + t[k + 1..];
    }
    hide Number;
    if a: string, b: string :| Number(a) && Number(b) && t == a + "-" + b {
      NumberMeans(a);
      NumberMeans(b);
      assert t[..|a|] == a && t[|a| + 1..] == b && t[|a|] == '-';
    }
  }

  /** The trashed name is the file's own name and a stamp behind a dot, or carries no stamp and is that name. */
  ghost predicate TrashedAs(trashed: string, base: string) {
    if exists b: string, t: string :: Stamps(t) && trashed == b + "." + t then exists t: string :: Stamps(t) && trashed == base + "." + t
    else trashed == base
  }

  lemma StampHasNoDot(t: string)
    requires Stamps(t)
    ensures '.' !in t
  {
    if !Number(t) {
      var a: string, b: string :| Number(a) && Number(b) && t == a + "-" + b;
    }
  }

  lemma SplitsOnce(trashed: string, b: string, t: string)
    requires Stamps(t) && trashed == b + "." + t
    ensures LastDot(trashed) == |b| && StripStamp(trashed) == b
  {
    StampHasNoDot(t);
    StampMeans(t);
    assert trashed[|b|] == '.' && trashed[|b| + 1..] == t && trashed[..|b|] == b;
    assert forall j :: |b| < j < |trashed| ==> trashed[j] == t[j - |b| - 1];
    hide Stamps, IsStamp;
    assert LastDot(trashed) == |b|;
  }

  lemma StripMeans(trashed: string, base: string)
    ensures StripStamp(trashed) == base <==> TrashedAs(trashed, base)
  {
    if b: string, t: string :| Stamps(t) && trashed == b + "." + t {
      SplitsOnce(trashed, b, t);
      if u: string :| Stamps(u) && trashed == base + "." + u {
        SplitsOnce(trashed, base, u);
      }
    } else {
      var i := LastDot(trashed);
      if i < |trashed| {
        StampMeans(trashed[i + 1..]);
        assert trashed == trashed[..i] + "." + trashed[i + 1..];
      }
    }
  }

  // ---- recovery ----

  predicate InTimeOrder(ls: seq<Listed>) { forall i, j :: 0 <= i < j < |ls| ==> ls[i].mtime <= ls[j].mtime }

  lemma {:induction false} InsertInOrder(l: Listed, sorted: seq<Listed>)
    requires InTimeOrder(sorted)
    ensures InTimeOrder(Insert(l, sorted))
  {
    if sorted != [] && l.mtime >= sorted[0].mtime {
      InsertInOrder(l, sorted[1..]);
      InsertMembers(l, sorted[1..]);
      var rest := Insert(l, sorted[1..]);
      forall j | 0 <= j < |rest| ensures sorted[0].mtime <= rest[j].mtime {
        assert rest[j] in rest;
        if rest[j] != l {
          var k :| 0 <= k < |sorted[1..]| && sorted[1..][k] == rest[j];
          assert sorted[k + 1] == rest[j];
        }
      }
    }
  }

  lemma {:induction false} SortedInOrder(listing: seq<Listed>)
    ensures InTimeOrder(SortByTime(listing)) && |SortByTime(listing)| == |listing|
  {
    if listing != [] {
      SortedInOrder(listing[..|listing| - 1]);
      InsertInOrder(listing[|listing| - 1], SortByTime(listing[..|listing| - 1]));
      InsertMembers(listing[|listing| - 1], SortByTime(listing[..|listing| - 1]));
    }
  }

  /** A rebuilt manifest lists each file of the scope once, oldest first, under its time and with no original path. */
  lemma RecoveredSays(listing: seq<Listed>)
    requires forall i, j :: 0 <= i < j < |listing| ==> listing[i].name != listing[j].name
    ensures var es := Recovered(listing);
            && |es| == |listing|
            && (forall i, j :: 0 <= i < j < |es| ==> es[i].at <= es[j].at && es[i].trashed != es[j].trashed)
            && (forall i :: 0 <= i < |es| ==> es[i].original.None? && Listed(es[i].trashed, es[i].at) in listing)
  {
    hide SortByTime;
    SortedInOrder(listing);
    SortKeeps(listing);
    var sorted := SortByTime(listing);
    forall i | 0 <= i < |sorted| ensures sorted[i] in listing { assert sorted[i] in sorted; }
  }

  // ---- restore ----

  /**
   A reference means an entry: a bare one by its trashed name or its file's own name, one with a directory by its original
   path; and one whose original path is lost by the name behind its stamp.
   */
  ghost predicate Means(ref: Ref, e: TaskEntry) {
    match ref
    case Bare(name) => e.trashed == name || (if e.original.Some? then e.original.value.base == name else TrashedAs(e.trashed, name))
    case Full(path) => if e.original.Some? then e.original.value == path else TrashedAs(e.trashed, path.base)
  }

  lemma MatchMeans(e: TaskEntry, ref: Ref)
    ensures Matches(e, ref) <==> Means(ref, e)
  {
    hide TrashedAs, StripStamp;
    match ref
    case Bare(name) => StripMeans(e.trashed, name);
    case Full(path) => StripMeans(e.trashed, path.base);
  }

  ghost predicate LastMeant(entries: seq<TaskEntry>, ref: Ref, i: nat) {
    i < |entries| && Means(ref, entries[i]) && forall j :: i < j < |entries| ==> !Means(ref, entries[j])
  }

  ghost predicate NoneMeant(entries: seq<TaskEntry>, ref: Ref) { forall j :: 0 <= j < |entries| ==> !Means(ref, entries[j]) }

  lemma LastMatchMeans(entries: seq<TaskEntry>, ref: Ref)
    ensures var i := LastMatch(entries, ref); if i.Some? then LastMeant(entries, ref, i.value) else NoneMeant(entries, ref)
  {
    forall j | 0 <= j < |entries| ensures Matches(entries[j], ref) <==> Means(ref, entries[j]) { MatchMeans(entries[j], ref); }
    hide Matches, Means;
  }

  /** Where a restored file goes: to its original path, else to the path the reference names in full. */
  ghost predicate GoesTo(e: TaskEntry, ref: Ref, path: Path) {
    if e.original.Some? then path == e.original.value else ref == Full(path)
  }

  /** What the restore answers about the last entry the reference means. */
  ghost predicate Answers(r: RestoreResult, st: State, scope: string, e: TaskEntry, ref: Ref, w: ManifestWrite) {
    if Trashed(scope, e.trashed) !in st.files then r == Gone
    else if e.original.None? && ref.Bare? then r == NeedsDestination
    else exists path :: GoesTo(e, ref, path)
           && r == if Live(path) in st.files then Occupied(path) else if w.Complete? then Restored(path) else WriteFailed
  }

  /** The file is at its path with its bytes and no longer in the scope, and every other file is as it was. */
  ghost predicate PutsBack(st: State, st': State, scope: string, e: TaskEntry, path: Path) {
    && Trashed(scope, e.trashed) in st.files && Live(path) !in st.files
    && Live(path) in st'.files && st'.files[Live(path)] == st.files[Trashed(scope, e.trashed)]
    && Trashed(scope, e.trashed) !in st'.files
    && forall p :: p != Live(path) && p != Trashed(scope, e.trashed) ==>
         (p in st.files <==> p in st'.files) && (p in st.files ==> st'.files[p] == st.files[p])
  }

  /** The manifest without exactly that entry, the scope as closed as it was and active now, and no other scope touched. */
  ghost predicate TakesOut(st: State, st': State, scope: string, entries: seq<TaskEntry>, i: nat, now: int, w: ManifestWrite)
    requires i < |entries|
  {
    && scope in st'.scopes && st'.scopes[scope].mtime == now
    && (scope in st.scopes ==> st'.scopes[scope].closedAt == st.scopes[scope].closedAt)
    && (forall s :: s != scope ==> (s in st.scopes <==> s in st'.scopes) && (s in st.scopes ==> st'.scopes[s] == st.scopes[s]))
    && match w
       case Complete => ManifestHolds(st'.scopes[scope].manifest, entries[..i] + entries[i + 1..])
       case Skipped => scope in st.scopes ==> st'.scopes[scope].manifest == st.scopes[scope].manifest
       case Torn => st'.scopes[scope].manifest.Unreadable?
  }

  predicate ManifestHolds(m: Manifest, entries: seq<TaskEntry>) {
    m.Rows? && |m.rows| == |entries| && forall i :: 0 <= i < |entries| ==> m.rows[i] == Some(entries[i])
  }

  lemma WrittenHolds(entries: seq<TaskEntry>)
    ensures ManifestHolds(Written(entries), entries)
  {
  }

  /** What is read of the manifest, and nothing happens unless the answer says so or the manifest's write fails. */
  lemma RestoreDoes(st: State, scope: string, ref: Ref, listing: seq<Listed>, now: int, w: ManifestWrite)
    ensures var entries := Read(ManifestOf(st, scope), listing);
            var r, st' := RestoreAnswer(st, scope, ref, listing, w), AfterRestore(st, scope, ref, listing, now, w);
            if NoneMeant(entries, ref) then r == NoMatch && st' == st
            else exists i: nat :: LastMeant(entries, ref, i) && Answers(r, st, scope, entries[i], ref, w)
                   && if r.Restored? || r.WriteFailed? then
                        exists path :: GoesTo(entries[i], ref, path) && PutsBack(st, st', scope, entries[i], path)
                                       && TakesOut(st, st', scope, entries, i, now, w)
                      else st' == st
  {
    var entries := Read(ManifestOf(st, scope), listing);
    LastMatchMeans(entries, ref);
    var last := LastMatch(entries, ref);
    if last.Some? {
      var i := last.value;
      WrittenHolds(entries[..i] + entries[i + 1..]);
      hide Read, Written, LastMatch, Matches, Means, ManifestHolds;
      OneRestore(st, scope, ref, listing, now, w, i);
    }
  }

  lemma OneRestore(st: State, scope: string, ref: Ref, listing: seq<Listed>, now: int, w: ManifestWrite, i: nat)
    requires LastMatch(Read(ManifestOf(st, scope), listing), ref) == Some(i)
    ensures var entries := Read(ManifestOf(st, scope), listing);
            var r, st' := RestoreAnswer(st, scope, ref, listing, w), AfterRestore(st, scope, ref, listing, now, w);
            && i < |entries| && Answers(r, st, scope, entries[i], ref, w)
            && if r.Restored? || r.WriteFailed? then
                 exists path :: GoesTo(entries[i], ref, path) && PutsBack(st, st', scope, entries[i], path)
                                && TakesOut(st, st', scope, entries, i, now, w)
               else st' == st
  {
    hide Read, Written, Matches, Means, ManifestHolds, PutsBack, TakesOut;
    var entries := Read(ManifestOf(st, scope), listing);
    var target := Target(entries[i], ref);
    if RestoreOutcome(st, scope, ref, listing).Restored? {
      RestoredFiles(st, scope, ref, listing, now, w, i);
      RestoredManifest(st, scope, ref, listing, now, w, i);
    }
    if target.Some? {
      assert GoesTo(entries[i], ref, target.value);
    }
  }

  lemma RestoredFiles(st: State, scope: string, ref: Ref, listing: seq<Listed>, now: int, w: ManifestWrite, i: nat)
    requires LastMatch(Read(ManifestOf(st, scope), listing), ref) == Some(i) && RestoreOutcome(st, scope, ref, listing).Restored?
    ensures var entries := Read(ManifestOf(st, scope), listing);
            i < |entries| && PutsBack(st, AfterRestore(st, scope, ref, listing, now, w), scope, entries[i], Target(entries[i], ref).value)
  {
    hide Read, Written, Matches;
  }

  lemma RestoredManifest(st: State, scope: string, ref: Ref, listing: seq<Listed>, now: int, w: ManifestWrite, i: nat)
    requires LastMatch(Read(ManifestOf(st, scope), listing), ref) == Some(i) && RestoreOutcome(st, scope, ref, listing).Restored?
    ensures var entries := Read(ManifestOf(st, scope), listing);
            i < |entries| && TakesOut(st, AfterRestore(st, scope, ref, listing, now, w), scope, entries, i, now, w)
  {
    var entries := Read(ManifestOf(st, scope), listing);
    WrittenHolds(entries[..i] + entries[i + 1..]);
    hide Read, Written, Matches, ManifestHolds;
  }

  // ---- move and sweep ----

  /** After a move, up to its sweep: the bytes are in the scope under a name of their own, and nothing else has moved. */
  lemma MoveDoes(st: State, scope: string, path: Path, listing: seq<Listed>, now: nat, n: nat, w: ManifestWrite)
    requires Live(path) in st.files && FirstFree(st, scope, path.base, now, n)
    ensures var st' := Moved(st, scope, path, listing, now, n, w);
            var e := TaskEntry(Some(path), TrashName(path.base, now, n), now);
            && PutsAway(st, st', scope, e, path)
            && scope in st'.scopes && st'.scopes[scope].closedAt.None? && st'.scopes[scope].mtime == now
            && (forall s :: s != scope ==> (s in st.scopes <==> s in st'.scopes) && (s in st.scopes ==> st'.scopes[s] == st.scopes[s]))
            && (w.Complete? ==> ManifestHolds(st'.scopes[scope].manifest, Read(ManifestOf(st, scope), listing) + [e]))
            && (w.Skipped? ==> st'.scopes[scope].manifest == ManifestOf(st, scope))
            && (w.Torn? ==> st'.scopes[scope].manifest.Unreadable?)
  {
    WrittenHolds(Read(ManifestOf(st, scope), listing) + [TaskEntry(Some(path), TrashName(path.base, now, n), now)]);
    hide Read, Written, TrashName, ManifestHolds;
  }

  ghost predicate PutsAway(st: State, st': State, scope: string, e: TaskEntry, path: Path) {
    && Live(path) in st.files && Trashed(scope, e.trashed) !in st.files
    && Trashed(scope, e.trashed) in st'.files && st'.files[Trashed(scope, e.trashed)] == st.files[Live(path)]
    && Live(path) !in st'.files
    && forall p :: p != Live(path) && p != Trashed(scope, e.trashed) ==>
         (p in st.files <==> p in st'.files) && (p in st.files ==> st'.files[p] == st.files[p])
  }

  /** Closed more than a day ago, or open and untouched for more than thirty. */
  predicate Over(sc: Scope, now: int) {
    if sc.closedAt.Some? then now - sc.closedAt.value > 86_400_000 else now - sc.mtime > 2_592_000_000
  }

  /** A sweep removes exactly the scopes whose time is over, but the excluded one, with their files, and touches nothing else. */
  lemma SweepDoes(st: State, now: int, exclude: Option<string>)
    ensures var st' := Swept(st, now, exclude);
            && (forall s :: s in st'.scopes <==> s in st.scopes && (Some(s) == exclude || !Over(st.scopes[s], now)))
            && (forall s :: s in st'.scopes ==> st'.scopes[s] == st.scopes[s])
            && (forall p :: p in st'.files <==>
                  p in st.files && !(p.Trashed? && p.scope in st.scopes && Some(p.scope) != exclude && Over(st.scopes[p.scope], now)))
            && (forall p :: p in st'.files ==> st'.files[p] == st.files[p])
  {
  }
}
