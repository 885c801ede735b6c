/**
 The task-scoped trash: one scope directory a session, holding the files its task deleted, and
 one manifest a scope, mapping each trashed name back to where the file came from.
 */
module TaskTrash {
  import opened Wrappers
  import opened Text

  // ---- names in a scope ----

  function Stamp(stamp: nat, n: nat): string {
    if n == 0 then Digits(stamp) else Digits(stamp) + "-" + Digits(n)
  }

  /** The n-th name tried for a file deleted at a given time. */
  function TrashName(base: string, stamp: nat, n: nat): string { base + "." + Stamp(stamp, n) }

  function LastDot(s: string): (i: nat)
    ensures i <= |s|
    ensures i < |s| ==> s[i] == '.'
    ensures forall j :: 0 <= j < |s| && (i == |s| || i < j) ==> s[j] != '.'
  {
    if s == "" then 0
    else if s[|s| - 1] == '.' then |s| - 1
    else
      var i := LastDot(s[..|s| - 1]);
      if i == |s| - 1 then |s| else i
  }

  predicate IsStamp(t: string) {
    (t != "" && AllDigits(t)) || exists k :: 0 < k < |t| - 1 && t[k] == '-' && AllDigits(t[..k]) && AllDigits(t[k + 1..])
  }

  /** The name without its trailing `.digits` or `.digits-digits`, if it has one. */
  function StripStamp(name: string): string {
    var i := LastDot(name);
    if i < |name| && IsStamp(name[i + 1..]) then name[..i] else name
  }

  // ---- the file system as far as this tier sees it ----

  datatype Path = Path(dir: string, base: string)

  /** A reference to restore: a bare name, or text with a directory part and the path it resolves to. */
  datatype Ref = Bare(name: string) | Full(path: Path)

  datatype Place = Live(path: Path) | Trashed(scope: string, name: string)

  datatype TaskEntry = TaskEntry(original: Option<Path>, trashed: string, at: int)

  /** A manifest that parses as an array may hold malformed rows. */
  datatype Manifest = Missing | Unreadable | Rows(rows: seq<Option<TaskEntry>>)

  datatype Scope = Scope(manifest: Manifest, closedAt: Option<int>, mtime: int)

  datatype State = State(files: map<Place, string>, scopes: map<string, Scope>)

  datatype Listed = Listed(name: string, mtime: int)

  /** What a call comes to: a value, or an exception. */
  datatype Result<T> = Ok(value: T) | Threw

  const RETENTION_MS := 30 * 86_400_000
  const TASK_TRASH_TTL_MS := 24 * 3_600_000

  /** The directory listing of a scope, marker files left out, in whatever order the system gives it. */
  ghost predicate IsListing(st: State, scope: string, listing: seq<Listed>) {
    && (forall i, j :: 0 <= i < j < |listing| ==> listing[i].name != listing[j].name)
    && (forall name :: Trashed(scope, name) in st.files <==> exists l :: l in listing && l.name == name)
  }

  // ---- reading and writing the manifest ----

  function Insert(l: Listed, sorted: seq<Listed>): seq<Listed> {
    if sorted == [] then [l]
    else if l.mtime < sorted[0].mtime then [l] + sorted
    else [sorted[0]] + Insert(l, sorted[1..])
  }

  /** A stable sort by time. */
  function SortByTime(listing: seq<Listed>): seq<Listed> {
    if listing == [] then [] else Insert(listing[|listing| - 1], SortByTime(listing[..|listing| - 1]))
  }

  function RecoveredEntry(l: Listed): TaskEntry { TaskEntry(None, l.name, l.mtime) }

  function Recovered(listing: seq<Listed>): seq<TaskEntry> {
    var sorted := SortByTime(listing);
    seq(|sorted|, i requires 0 <= i < |sorted| => RecoveredEntry(sorted[i]))
  }

  function WellShaped(rows: seq<Option<TaskEntry>>): seq<TaskEntry> {
    if rows == [] then []
    else (if rows[0].Some? then [rows[0].value] else []) + WellShaped(rows[1..])
  }

  /** readTaskManifest: rebuilt from the listing when unreadable, or when rows exist but none is well shaped. */
  function Read(m: Manifest, listing: seq<Listed>): seq<TaskEntry> {
    match m
    case Missing => []
    case Unreadable => Recovered(listing)
    case Rows(rows) => if WellShaped(rows) != [] || rows == [] then WellShaped(rows) else Recovered(listing)
  }

  function Written(entries: seq<TaskEntry>): Manifest {
    Rows(seq(|entries|, i requires 0 <= i < |entries| => Some(entries[i])))
  }

  /**
   How the write of a manifest goes, after the file has been moved: it completes; it never happens, because it throws at
   once or the process dies before it, and what was there stays; or it stops part-way, and what is there no longer parses.
   */
  datatype ManifestWrite = Complete | Skipped | Torn

  function AfterWrite(m: Manifest, entries: seq<TaskEntry>, w: ManifestWrite): Manifest {
    match w
    case Complete => Written(entries)
    case Skipped => m
    case Torn => Unreadable
  }

  function ManifestOf(st: State, scope: string): Manifest {
    if scope in st.scopes then st.scopes[scope].manifest else Missing
  }

  // ---- operations ----

  /** n is the first try whose name is free in the scope. */
  ghost predicate FirstFree(st: State, scope: string, base: string, stamp: nat, n: nat) {
    && Trashed(scope, TrashName(base, stamp, n)) !in st.files
    && forall k: nat :: k < n ==> Trashed(scope, TrashName(base, stamp, k)) in st.files
  }

  /** The file goes into the scope under the n-th name, and its entry is to be written; the scope is open and fresh again. */
  function Moved(st: State, scope: string, path: Path, listing: seq<Listed>, now: nat, n: nat, w: ManifestWrite): State
    requires Live(path) in st.files
  {
    var name := TrashName(path.base, now, n);
    var entries := Read(ManifestOf(st, scope), listing) + [TaskEntry(Some(path), name, now)];
    State((st.files - {Live(path)})[Trashed(scope, name) := st.files[Live(path)]],
          st.scopes[scope := Scope(AfterWrite(ManifestOf(st, scope), entries, w), None, now)])
  }

  predicate Expired(sc: Scope, now: int) {
    if sc.closedAt.Some? then now - sc.closedAt.value > TASK_TRASH_TTL_MS else sc.mtime < now - RETENTION_MS
  }

  predicate Sweeps(st: State, scope: string, now: int, exclude: Option<string>) {
    scope in st.scopes && Some(scope) != exclude && Expired(st.scopes[scope], now)
  }

  function Swept(st: State, now: int, exclude: Option<string>): State {
    State(map p | p in st.files && !(p.Trashed? && Sweeps(st, p.scope, now, exclude)) :: st.files[p],
          map s | s in st.scopes && !Sweeps(st, s, now, exclude) :: st.scopes[s])
  }

  predicate Matches(e: TaskEntry, ref: Ref) {
    match ref
    case Bare(name) =>
      e.trashed == name || if e.original.Some? then e.original.value.base == name else StripStamp(e.trashed) == name
    case Full(path) =>
      if e.original.Some? then e.original.value == path else StripStamp(e.trashed) == path.base
  }

  /** The most recent matching entry. */
  function LastMatch(entries: seq<TaskEntry>, ref: Ref): (i: Option<nat>)
    ensures i.Some? ==> i.value < |entries| && Matches(entries[i.value], ref)
    ensures forall j :: (if i.Some? then i.value else -1) < j < |entries| ==> !Matches(entries[j], ref)
  {
    if entries == [] then None
    else if Matches(entries[|entries| - 1], ref) then Some(|entries| - 1)
    else LastMatch(entries[..|entries| - 1], ref)
  }

  datatype RestoreResult = Restored(path: Path) | NoMatch | Gone | NeedsDestination | Occupied(path: Path) | WriteFailed

  function Target(e: TaskEntry, ref: Ref): Option<Path> {
    if e.original.Some? then e.original
    else match ref
      case Bare(_) => None
      case Full(path) => Some(path)
  }

  /** What becomes of the restore, up to the write of the manifest. */
  function RestoreOutcome(st: State, scope: string, ref: Ref, listing: seq<Listed>): RestoreResult {
    var entries := Read(ManifestOf(st, scope), listing);
    var i := LastMatch(entries, ref);
    if i.None? then NoMatch
    else
      var e := entries[i.value];
      if Trashed(scope, e.trashed) !in st.files then Gone
      else if Target(e, ref).None? then NeedsDestination
      else if Live(Target(e, ref).value) in st.files then Occupied(Target(e, ref).value)
      else Restored(Target(e, ref).value)
  }

  /** What it answers: a write that fails is an error, although the file is back by then. */
  function RestoreAnswer(st: State, scope: string, ref: Ref, listing: seq<Listed>, w: ManifestWrite): RestoreResult {
    var result := RestoreOutcome(st, scope, ref, listing);
    if result.Restored? && !w.Complete? then WriteFailed else result
  }

  function AfterRestore(st: State, scope: string, ref: Ref, listing: seq<Listed>, now: int, w: ManifestWrite): State {
    var entries := Read(ManifestOf(st, scope), listing);
    var result := RestoreOutcome(st, scope, ref, listing);
    if !result.Restored? then st
    else
      var i := LastMatch(entries, ref).value;
      var src := Trashed(scope, entries[i].trashed);
      State((st.files - {src})[Live(result.path) := st.files[src]],
            st.scopes[scope := Scope(AfterWrite(ManifestOf(st, scope), entries[..i] + entries[i + 1..], w),
                                     if scope in st.scopes then st.scopes[scope].closedAt else None, now)])
  }

  function Closed(st: State, scope: string, now: int): State {
    if scope !in st.scopes then st
    else st.(scopes := st.scopes[scope := Scope(st.scopes[scope].manifest, Some(now), now)])
  }

  // ---- facts about names ----

  lemma NamesDiffer(base: string, stamp: nat, m: nat, n: nat)
    requires m != n
    ensures TrashName(base, stamp, m) != TrashName(base, stamp, n)
  {
    hide Digits;
    var p := base + "." + Digits(stamp);
    NameTail(base, stamp, m);
    NameTail(base, stamp, n);
    if TrashName(base, stamp, m) == TrashName(base, stamp, n) && m > 0 && n > 0 {
      assert ("-" + Digits(m))[1..] == Digits(m) && ("-" + Digits(n))[1..] == Digits(n);
      DigitsInjective(m, n);
    }
  }

  lemma NameTail(base: string, stamp: nat, n: nat)
    ensures var p, name := base + "." + Digits(stamp), TrashName(base, stamp, n);
            |p| <= |name| && name[|p|..] == if n == 0 then "" else "-" + Digits(n)
  {
    hide Digits;
    var p := base + "." + Digits(stamp);
    if n > 0 { assert TrashName(base, stamp, n) == p + ("-" + Digits(n)); }
  }

  /** Stripping the stamp gives back the deleted file's own name, whatever dots or digits it holds. */
  lemma StripUndoesStamp(base: string, stamp: nat, n: nat)
    ensures StripStamp(TrashName(base, stamp, n)) == base
  {
    var t, name := Stamp(stamp, n), TrashName(base, stamp, n);
    var d := Digits(stamp);
    assert name == base + ("." + t) && name[|base|] == '.' && name[|base| + 1..] == t;
    assert IsStamp(t) by {
      if n > 0 {
        assert t[..|d|] == d && t[|d|] == '-' && t[|d| + 1..] == Digits(n);
      }
    }
    assert forall j :: 0 <= j < |t| ==> t[j] != '.';
    assert forall j :: |base| < j < |name| ==> name[j] == t[j - |base| - 1];
    assert LastDot(name) == |base|;
    assert name[..|base|] == base;
  }

  // ---- the trash itself ----

  class Trash {
    var files: map<Place, string>
    var scopes: map<string, Scope>

    ghost function Abs(): State
      reads this
    {
      State(files, scopes)
    }

    constructor ()
      ensures Abs() == State(map[], map[])
    {
      files, scopes := map[], map[];
    }

    /** The first free name: the tries are all different, so the loop cannot outlast the scope's files. */
    method FreeName(scope: string, base: string, stamp: nat) returns (n: nat)
      ensures FirstFree(Abs(), scope, base, stamp, n)
    {
      n := 0;
      ghost var tried: set<Place> := {};
      while Trashed(scope, TrashName(base, stamp, n)) in files
        invariant tried <= files.Keys && |tried| == n <= |files.Keys|
        invariant forall k: nat :: k < n ==> Trashed(scope, TrashName(base, stamp, k)) in tried
        invariant forall p :: p in tried ==> exists k: nat :: k < n && p == Trashed(scope, TrashName(base, stamp, k))
        decreases |files.Keys| - n
      {
        ghost var place := Trashed(scope, TrashName(base, stamp, n));
        if place in tried {
          ghost var k: nat :| k < n && place == Trashed(scope, TrashName(base, stamp, k));
          NamesDiffer(base, stamp, k, n);
        }
        tried := tried + {place};
        SubsetSize(tried, files.Keys);
        n := n + 1;
      }
    }

    /** The trashed name, nothing when there is no such file, or an exception: the file is then in the scope all the same. */
    method MoveToTaskTrash(scope: string, path: Path, listing: seq<Listed>, now: nat, w: ManifestWrite)
      returns (name: Result<Option<string>>)
      requires IsListing(Abs(), scope, listing)
      modifies this
      ensures name == Ok(None) <==> Live(path) !in old(files)
      ensures name == Ok(None) ==> Abs() == old(Abs())
      ensures name != Ok(None) ==>
        exists n: nat ::
          && FirstFree(old(Abs()), scope, path.base, now, n)
          && name == (if w.Complete? then Ok(Some(TrashName(path.base, now, n))) else Threw)
          && var moved := Moved(old(Abs()), scope, path, listing, now, n, w);
             Abs() == if w.Complete? then Swept(moved, now, Some(scope)) else moved
    {
      if Live(path) !in files {
        return Ok(None);
      }
      var n := FreeName(scope, path.base, now);
      var dest := TrashName(path.base, now, n);
      var manifest := if scope in scopes then scopes[scope].manifest else Missing;
      var entries := Read(manifest, listing);
      files := (files - {Live(path)})[Trashed(scope, dest) := files[Live(path)]];
      entries := entries + [TaskEntry(Some(path), dest, now)];
      scopes := scopes[scope := Scope(AfterWrite(manifest, entries, w), None, now)];
      assert Abs() == Moved(old(Abs()), scope, path, listing, now, n, w);
      if !w.Complete? {
        return Threw;
      }
      Sweep(now, Some(scope));
      return Ok(Some(dest));
    }

    /** The index of the last entry a reference matches, found by filtering. */
    method FindLast(entries: seq<TaskEntry>, ref: Ref) returns (last: Option<nat>)
      ensures last == LastMatch(entries, ref)
    {
      var found: seq<nat> := [];
      for i := 0 to |entries|
        invariant forall k :: k in found ==> k < i
        invariant found == [] ==> LastMatch(entries[..i], ref) == None
        invariant found != [] ==> LastMatch(entries[..i], ref) == Some(found[|found| - 1])
      {
        assert entries[..i + 1][..i] == entries[..i];
        if Matches(entries[i], ref) {
          found := found + [i];
        }
      }
      assert entries[..|entries|] == entries;
      last := if found == [] then None else Some(found[|found| - 1]);
    }

    method RestoreFromTaskTrash(scope: string, ref: Ref, listing: seq<Listed>, now: int, w: ManifestWrite) returns (r: RestoreResult)
      requires IsListing(Abs(), scope, listing)
      modifies this
      ensures r == RestoreAnswer(old(Abs()), scope, ref, listing, w)
      ensures Abs() == AfterRestore(old(Abs()), scope, ref, listing, now, w)
    {
      hide Read, Written, LastMatch, Matches, Target, IsListing;
      var manifest := if scope in scopes then scopes[scope].manifest else Missing;
      var entries := Read(manifest, listing);
      var found := FindLast(entries, ref);
      if found.None? {
        return NoMatch;
      }
      var entry := entries[found.value];
      var src := Trashed(scope, entry.trashed);
      if src !in files {
        return Gone;
      }
      var target := Target(entry, ref);
      if target.None? {
        return NeedsDestination;
      }
      if Live(target.value) in files {
        return Occupied(target.value);
      }
      var closedAt := if scope in scopes then scopes[scope].closedAt else None;
      files := (files - {src})[Live(target.value) := files[src]];
      entries := entries[..found.value] + entries[found.value + 1..];
      scopes := scopes[scope := Scope(AfterWrite(manifest, entries, w), closedAt, now)];
      return if w.Complete? then Restored(target.value) else WriteFailed;
    }

    method MarkTaskTrashScopeClosed(scope: string, now: int)
      modifies this
      ensures Abs() == Closed(old(Abs()), scope, now)
    {
      if scope in scopes {
        scopes := scopes[scope := Scope(scopes[scope].manifest, Some(now), now)];
      }
    }

    /** sweepTaskScopes: every expired scope but the excluded one is removed with all it holds. */
    method Sweep(now: int, exclude: Option<string>)
      modifies this
      ensures Abs() == Swept(old(Abs()), now, exclude)
    {
      ghost var before := Abs();
      var todo := scopes.Keys;
      while todo != {}
        invariant todo <= before.scopes.Keys
        invariant forall s :: s in scopes <==> s in before.scopes && (s in todo || !Sweeps(before, s, now, exclude))
        invariant forall s :: s in scopes ==> scopes[s] == before.scopes[s]
        invariant forall p :: p in files <==>
          p in before.files && !(p.Trashed? && Sweeps(before, p.scope, now, exclude) && p.scope !in todo)
        invariant forall p :: p in files ==> files[p] == before.files[p]
        decreases |todo|
      {
        var s :| s in todo;
        todo := todo - {s};
        if Some(s) != exclude && Expired(scopes[s], now) {
          files := map p | p in files && !(p.Trashed? && p.scope == s) :: files[p];
          scopes := scopes - {s};
        }
      }
      assert files == Swept(before, now, exclude).files;
      assert scopes == Swept(before, now, exclude).scopes;
    }
  }

  lemma {:induction false} SubsetSize(a: set<Place>, b: set<Place>)
    requires a <= b
    ensures |a| <= |b|
  {
    if a != {} {
      var x :| x in a;
      SubsetSize(a - {x}, b - {x});
    }
  }
}
