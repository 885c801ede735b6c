/**
 What the task trash keeps over any run of moves, restores, closes and sweeps, with manifests that are damaged whole or
 in part or not written, and outside changes to live files.
 */
module TrashTheorems {
  import opened Wrappers
  import opened TaskTrash

  // ---- runs ----

  /**
   Move and Restore carry the directory listing they would see and how their manifest write goes; Write, Remove, Corrupt
   and Damage are other programs at work. Damage leaves the rows at some indices well shaped and spoils the others.
   */
  datatype Action =
    | Move(scope: string, path: Path, listing: seq<Listed>, now: nat, n: nat, w: ManifestWrite)
    | Restore(scope: string, ref: Ref, listing: seq<Listed>, now: nat, w: ManifestWrite)
    | Close(scope: string, now: nat)
    | Sweep(now: nat)
    | Write(path: Path, text: string)
    | Remove(path: Path)
    | Corrupt(scope: string)
    | Damage(scope: string, left: set<nat>)

  ghost predicate Enabled(st: State, a: Action) {
    match a
    case Move(scope, path, listing, now, n, _) =>
      Live(path) in st.files && IsListing(st, scope, listing) && FirstFree(st, scope, path.base, now, n)
    case Restore(scope, _, listing, _, _) => IsListing(st, scope, listing)
    case _ => true
  }

  /** The rows with those at other indices spoilt. */
  function Damaged(rows: seq<Option<TaskEntry>>, left: set<nat>): seq<Option<TaskEntry>> {
    seq(|rows|, i requires 0 <= i < |rows| => if i in left then rows[i] else None)
  }

  function WithManifest(st: State, scope: string, m: Manifest): State
    requires scope in st.scopes
  {
    st.(scopes := st.scopes[scope := st.scopes[scope].(manifest := m)])
  }

  function After(st: State, a: Action): State {
    match a
    case Move(scope, path, listing, now, n, w) =>
      if Live(path) !in st.files then st
      else
        var moved := Moved(st, scope, path, listing, now, n, w);
        if w.Complete? then Swept(moved, now, Some(scope)) else moved
    case Restore(scope, ref, listing, now, w) => AfterRestore(st, scope, ref, listing, now, w)
    case Close(scope, now) => Closed(st, scope, now)
    case Sweep(now) => Swept(st, now, None)
    case Write(path, text) => st.(files := st.files[Live(path) := text])
    case Remove(path) => st.(files := st.files - {Live(path)})
    case Corrupt(scope) => if scope in st.scopes then WithManifest(st, scope, Unreadable) else st
    case Damage(scope, left) =>
      if ManifestOf(st, scope).Rows? then WithManifest(st, scope, Rows(Damaged(ManifestOf(st, scope).rows, left))) else st
  }

  function AfterAll(st: State, run: seq<Action>): State
    decreases |run|
  {
    if run == [] then st else AfterAll(After(st, run[0]), run[1..])
  }

  ghost predicate IsRun(st: State, run: seq<Action>)
    decreases |run|
  {
    run == [] || (Enabled(st, run[0]) && IsRun(After(st, run[0]), run[1..]))
  }

  // ---- manifest and files are in bijection ----

  /** Each entry names its own file of the scope, and each file has its entry. */
  ghost predicate Faithful(entries: seq<TaskEntry>, st: State, scope: string) {
    && (forall i, j :: 0 <= i < j < |entries| ==> entries[i].trashed != entries[j].trashed)
    && (forall i :: 0 <= i < |entries| ==> Trashed(scope, entries[i].trashed) in st.files)
    && (forall name :: Trashed(scope, name) in st.files ==> HasEntry(entries, name))
  }

  predicate HasEntry(entries: seq<TaskEntry>, name: string) {
    exists i :: 0 <= i < |entries| && entries[i].trashed == name
  }

  /** A manifest that is rebuilt from the listing when it is read. */
  predicate Rebuilds(m: Manifest) { m.Unreadable? || (m.Rows? && m.rows != [] && WellShaped(m.rows) == []) }

  /** What any other one is read as. */
  function Stored(m: Manifest): seq<TaskEntry> { if m.Rows? then WellShaped(m.rows) else [] }

  /** Whatever reads the scope's manifest sees each of its files once, and nothing else. */
  ghost predicate Honest(st: State, scope: string) {
    var m := ManifestOf(st, scope);
    Rebuilds(m) || Faithful(Stored(m), st, scope)
  }

  lemma {:induction false} InsertMembers(l: Listed, sorted: seq<Listed>)
    ensures |Insert(l, sorted)| == |sorted| + 1
    ensures forall x :: x in Insert(l, sorted) <==> x == l || x in sorted
  {
    if sorted != [] && l.mtime >= sorted[0].mtime {
      InsertMembers(l, sorted[1..]);
      assert sorted == [sorted[0]] + sorted[1..];
    }
  }

  ghost predicate NamesDistinct(ls: seq<Listed>) {
    forall i, j :: 0 <= i < j < |ls| ==> ls[i].name != ls[j].name
  }

  lemma {:induction false} InsertDistinct(l: Listed, sorted: seq<Listed>)
    requires NamesDistinct(sorted) && forall x :: x in sorted ==> x.name != l.name
    ensures NamesDistinct(Insert(l, sorted))
  {
    if sorted != [] && l.mtime >= sorted[0].mtime {
      var rest := Insert(l, sorted[1..]);
      InsertDistinct(l, sorted[1..]);
      InsertMembers(l, sorted[1..]);
      forall j | 0 <= j < |rest| ensures rest[j].name != sorted[0].name {
        assert rest[j] in rest && sorted[0] in sorted;
        if rest[j] != l {
          var k :| 0 <= k < |sorted[1..]| && sorted[1..][k] == rest[j];
        }
      }
    }
  }

  /** Recovery's sort keeps every listed file, once. */
  lemma {:induction false} SortKeeps(listing: seq<Listed>)
    requires NamesDistinct(listing)
    ensures NamesDistinct(SortByTime(listing))
    ensures forall x :: x in SortByTime(listing) <==> x in listing
  {
    if listing != [] {
      var n := |listing| - 1;
      SortKeeps(listing[..n]);
      InsertMembers(listing[n], SortByTime(listing[..n]));
      InsertDistinct(listing[n], SortByTime(listing[..n]));
      assert listing == listing[..n] + [listing[n]];
    }
  }

  lemma RecoveredIsFaithful(st: State, scope: string, listing: seq<Listed>)
    requires IsListing(st, scope, listing)
    ensures Faithful(Recovered(listing), st, scope)
  {
    hide SortByTime;
    SortKeeps(listing);
    var sorted, entries := SortByTime(listing), Recovered(listing);
    forall i | 0 <= i < |entries| ensures Trashed(scope, entries[i].trashed) in st.files {
      assert sorted[i] in sorted;
    }
    forall name | Trashed(scope, name) in st.files ensures HasEntry(entries, name) {
      var l :| l in listing && l.name == name;
      var i :| 0 <= i < |sorted| && sorted[i] == l;
      assert entries[i].trashed == name;
    }
  }

  lemma {:induction false} WholeRows(rows: seq<Option<TaskEntry>>)
    requires forall r :: r in rows ==> r.Some?
    ensures |WellShaped(rows)| == |rows| && forall i :: 0 <= i < |rows| ==> rows[i] == Some(WellShaped(rows)[i])
  {
    if rows != [] {
      assert rows[0] in rows;
      WholeRows(rows[1..]);
    }
  }

  lemma WrittenReads(entries: seq<TaskEntry>, listing: seq<Listed>)
    ensures Written(entries).Rows? && (forall r :: r in Written(entries).rows ==> r.Some?)
    ensures WellShaped(Written(entries).rows) == entries
    ensures Read(Written(entries), listing) == entries
  {
    WholeRows(Written(entries).rows);
    assert WellShaped(Written(entries).rows) == entries;
  }

  /** What an operation reads is in bijection with the files, even when the manifest had to be rebuilt. */
  lemma ReadIsFaithful(st: State, scope: string, listing: seq<Listed>)
    requires Honest(st, scope) && IsListing(st, scope, listing)
    ensures Faithful(Read(ManifestOf(st, scope), listing), st, scope)
  {
    hide IsListing, WellShaped, Recovered, Faithful;
    RecoveredIsFaithful(st, scope, listing);
  }

  /** And it says of a scope exactly whether it is. */
  lemma ReadIsFaithfulIff(st: State, scope: string, listing: seq<Listed>)
    requires IsListing(st, scope, listing)
    ensures Faithful(Read(ManifestOf(st, scope), listing), st, scope) <==> Honest(st, scope)
  {
    hide IsListing, WellShaped, Recovered, Faithful;
    RecoveredIsFaithful(st, scope, listing);
  }

  ghost predicate SameFiles(st: State, st': State, scope: string) {
    forall name :: Trashed(scope, name) in st.files <==> Trashed(scope, name) in st'.files
  }

  lemma FaithfulFrame(entries: seq<TaskEntry>, st: State, st': State, scope: string)
    requires Faithful(entries, st, scope) && SameFiles(st, st', scope)
    ensures Faithful(entries, st', scope)
  {
  }

  /** A scope whose files and manifest stay, stays as honest as it was. */
  lemma HonestFrame(st: State, st': State, scope: string)
    requires SameFiles(st, st', scope) && ManifestOf(st', scope) == ManifestOf(st, scope)
    ensures Honest(st', scope) <==> Honest(st, scope)
  {
    hide Faithful, WellShaped;
    var entries := Stored(ManifestOf(st, scope));
    if Faithful(entries, st, scope) { FaithfulFrame(entries, st, st', scope); }
    if Faithful(entries, st', scope) { FaithfulFrame(entries, st', st, scope); }
  }

  lemma MovedIsFaithful(st: State, st': State, scope: string, entries: seq<TaskEntry>, e: TaskEntry)
    requires Faithful(entries, st, scope) && Trashed(scope, e.trashed) !in st.files
    requires forall name :: Trashed(scope, name) in st'.files <==> Trashed(scope, name) in st.files || name == e.trashed
    ensures Faithful(entries + [e], st', scope)
  {
    forall name | Trashed(scope, name) in st'.files ensures HasEntry(entries + [e], name) {
      if name == e.trashed {
        assert (entries + [e])[|entries|] == e;
      } else {
        assert HasEntry(entries, name);
        var i :| 0 <= i < |entries| && entries[i].trashed == name;
        assert (entries + [e])[i].trashed == name;
      }
    }
  }

  lemma RestoredIsFaithful(st: State, st': State, scope: string, entries: seq<TaskEntry>, k: nat)
    requires Faithful(entries, st, scope) && k < |entries|
    requires forall name :: Trashed(scope, name) in st'.files <==> Trashed(scope, name) in st.files && name != entries[k].trashed
    ensures Faithful(entries[..k] + entries[k + 1..], st', scope)
  {
    var left := entries[..k] + entries[k + 1..];
    forall i | 0 <= i < |left| ensures Trashed(scope, left[i].trashed) in st'.files {
      assert left[i] == entries[if i < k then i else i + 1];
    }
    forall name | Trashed(scope, name) in st'.files ensures HasEntry(left, name) {
      assert HasEntry(entries, name);
      var i :| 0 <= i < |entries| && entries[i].trashed == name;
      assert left[if i < k then i else i - 1].trashed == name;
    }
  }

  /** After its write, the scope is honest exactly when the write did not leave a manifest as it was that is believed. */
  lemma WriteDecides(st: State, m: Manifest, scope: string, entries: seq<TaskEntry>, w: ManifestWrite)
    requires ManifestOf(st, scope) == AfterWrite(m, entries, w)
    requires Faithful(entries, st, scope) && !Faithful(Stored(m), st, scope)
    ensures Honest(st, scope) <==> !(w.Skipped? && !Rebuilds(m))
  {
    hide Faithful;
    WrittenReads(entries, []);
  }

  lemma MoveDecides(st: State, scope: string, path: Path, listing: seq<Listed>, now: nat, n: nat, w: ManifestWrite)
    requires Honest(st, scope) && Live(path) in st.files && IsListing(st, scope, listing)
    requires FirstFree(st, scope, path.base, now, n)
    ensures Honest(Moved(st, scope, path, listing, now, n, w), scope) <==> !(w.Skipped? && !Rebuilds(ManifestOf(st, scope)))
  {
    hide Faithful, Read, IsListing, WellShaped, Written, TrashName, Rebuilds;
    var m, st' := ManifestOf(st, scope), Moved(st, scope, path, listing, now, n, w);
    var entries, e := Read(m, listing), TaskEntry(Some(path), TrashName(path.base, now, n), now);
    ReadIsFaithful(st, scope, listing);
    MovedIsFaithful(st, st', scope, entries, e);
    if Rebuilds(m) {
      WrittenReads(entries + [e], listing);
      RebuildsIsHonest(st', scope);
      AfterWriteRebuilds(m, entries + [e], w);
    } else {
      NewFileHasNoEntry(st, st', scope, Stored(m), e.trashed);
      WriteDecides(st', m, scope, entries + [e], w);
    }
  }

  lemma RebuildsIsHonest(st: State, scope: string)
    ensures Rebuilds(ManifestOf(st, scope)) ==> Honest(st, scope)
    ensures forall entries :: ManifestOf(st, scope) == Written(entries) && Faithful(entries, st, scope) ==> Honest(st, scope)
  {
    hide Faithful, Rebuilds;
    forall entries | ManifestOf(st, scope) == Written(entries) && Faithful(entries, st, scope) ensures Honest(st, scope) {
      WrittenReads(entries, []);
    }
  }

  lemma AfterWriteRebuilds(m: Manifest, entries: seq<TaskEntry>, w: ManifestWrite)
    requires Rebuilds(m)
    ensures AfterWrite(m, entries, w) == Written(entries) || Rebuilds(AfterWrite(m, entries, w))
  {
  }

  lemma NewFileHasNoEntry(st: State, st': State, scope: string, entries: seq<TaskEntry>, name: string)
    requires Faithful(entries, st, scope) && Trashed(scope, name) !in st.files && Trashed(scope, name) in st'.files
    ensures !HasEntry(entries, name) && !Faithful(entries, st', scope)
  {
  }

  lemma RestoreDecides(st: State, scope: string, ref: Ref, listing: seq<Listed>, now: nat, w: ManifestWrite)
    requires Honest(st, scope) && IsListing(st, scope, listing)
    ensures Honest(AfterRestore(st, scope, ref, listing, now, w), scope)
            <==> !(w.Skipped? && !Rebuilds(ManifestOf(st, scope)) && RestoreOutcome(st, scope, ref, listing).Restored?)
    ensures !RestoreOutcome(st, scope, ref, listing).Restored? ==> AfterRestore(st, scope, ref, listing, now, w) == st
  {
    hide Faithful, Read, IsListing, WellShaped, Written, LastMatch, Matches, Rebuilds, Target;
    var m, st' := ManifestOf(st, scope), AfterRestore(st, scope, ref, listing, now, w);
    if RestoreOutcome(st, scope, ref, listing).Restored? {
      var entries := Read(m, listing);
      var k := LastMatch(entries, ref).value;
      var rest := entries[..k] + entries[k + 1..];
      ReadIsFaithful(st, scope, listing);
      RestoredIsFaithful(st, st', scope, entries, k);
      if Rebuilds(m) {
        RebuildsIsHonest(st', scope);
        AfterWriteRebuilds(m, rest, w);
      } else {
        assert entries == Stored(m) by { ReadIsStored(m, listing); }
        TakenFileIsGone(st', scope, entries, k);
        WriteDecides(st', m, scope, rest, w);
      }
    }
  }

  lemma ReadIsStored(m: Manifest, listing: seq<Listed>)
    ensures Read(m, listing) == if Rebuilds(m) then Recovered(listing) else Stored(m)
  {
  }

  lemma TakenFileIsGone(st: State, scope: string, entries: seq<TaskEntry>, k: nat)
    requires k < |entries| && Trashed(scope, entries[k].trashed) !in st.files
    ensures !Faithful(entries, st, scope)
  {
  }

  lemma SweepKeepsHonest(st: State, now: nat, exclude: Option<string>, scope: string)
    requires Honest(st, scope)
    ensures Honest(Swept(st, now, exclude), scope)
    ensures !Sweeps(st, scope, now, exclude) ==> ManifestOf(Swept(st, now, exclude), scope) == ManifestOf(st, scope)
  {
    hide Expired;
    var st' := Swept(st, now, exclude);
    if !Sweeps(st, scope, now, exclude) {
      HonestFrame(st, st', scope);
    }
  }

  // ---- partial damage ----

  lemma {:induction false} ShapedRow(rows: seq<Option<TaskEntry>>, e: TaskEntry)
    ensures e in WellShaped(rows) <==> Some(e) in rows
  {
    if rows != [] {
      ShapedRow(rows[1..], e);
      assert rows == [rows[0]] + rows[1..];
    }
  }

  predicate NamesOnce(entries: seq<TaskEntry>) {
    forall i, j :: 0 <= i < j < |entries| ==> entries[i].trashed != entries[j].trashed
  }

  predicate RowsOnce(rows: seq<Option<TaskEntry>>) {
    forall i, j :: 0 <= i < j < |rows| && rows[i].Some? && rows[j].Some? ==> rows[i].value.trashed != rows[j].value.trashed
  }

  lemma {:induction false} OnceIffOnce(rows: seq<Option<TaskEntry>>)
    ensures NamesOnce(WellShaped(rows)) <==> RowsOnce(rows)
  {
    if rows != [] {
      var rest, es := rows[1..], WellShaped(rows[1..]);
      OnceIffOnce(rest);
      assert rows == [rows[0]] + rest;
      FirstRowOnce(rows[0], rest);
      if rows[0].Some? {
        FirstNameOnce(rows[0].value, rest);
      }
      assert [] + es == es;
    }
  }

  lemma FirstRowOnce(r: Option<TaskEntry>, rest: seq<Option<TaskEntry>>)
    ensures RowsOnce([r] + rest) <==>
            RowsOnce(rest) && (r.Some? ==> forall j :: 0 <= j < |rest| && rest[j].Some? ==> rest[j].value.trashed != r.value.trashed)
  {
    var rows := [r] + rest;
    assert forall j :: 0 <= j < |rest| ==> rows[j + 1] == rest[j];
    if RowsOnce(rows) {
      forall i, j | 0 <= i < j < |rest| && rest[i].Some? && rest[j].Some? ensures rest[i].value.trashed != rest[j].value.trashed {
        assert rows[i + 1] == rest[i] && rows[j + 1] == rest[j];
      }
      forall j | 0 <= j < |rest| && rest[j].Some? && r.Some? ensures rest[j].value.trashed != r.value.trashed {
        assert rows[0] == r && rows[j + 1] == rest[j];
      }
    }
  }

  lemma FirstNameOnce(e: TaskEntry, rows: seq<Option<TaskEntry>>)
    ensures NamesOnce([e] + WellShaped(rows)) <==>
            NamesOnce(WellShaped(rows)) && forall j :: 0 <= j < |rows| && rows[j].Some? ==> rows[j].value.trashed != e.trashed
  {
    hide WellShaped;
    var es := WellShaped(rows);
    var all := [e] + es;
    assert forall i :: 0 <= i < |es| ==> all[i + 1] == es[i];
    if NamesOnce(all) {
      forall j | 0 <= j < |rows| && rows[j].Some? ensures rows[j].value.trashed != e.trashed {
        assert Some(rows[j].value) in rows;
        ShapedRow(rows, rows[j].value);
        var i :| 0 <= i < |es| && es[i] == rows[j].value;
        assert all[0] == e && all[i + 1] == es[i];
      }
      forall i, j | 0 <= i < j < |es| ensures es[i].trashed != es[j].trashed {
        assert all[i + 1] == es[i] && all[j + 1] == es[j];
      }
    }
    if NamesOnce(es) && forall j :: 0 <= j < |rows| && rows[j].Some? ==> rows[j].value.trashed != e.trashed {
      forall j | 0 <= j < |es| ensures es[j].trashed != e.trashed {
        ShapedRow(rows, es[j]);
        assert es[j] in es;
        var i :| 0 <= i < |rows| && rows[i] == Some(es[j]);
      }
    }
  }

  /** Does the damage spoil a well-shaped row and leave another? */
  predicate LosesSome(rows: seq<Option<TaskEntry>>, left: set<nat>) {
    && (exists i: nat :: i < |rows| && rows[i].Some? && i !in left)
    && (exists i: nat :: i < |rows| && rows[i].Some? && i in left)
  }

  /** The entry of a row that is spoilt is in no other row. */
  lemma SpoiltHasNoEntry(rows: seq<Option<TaskEntry>>, left: set<nat>, i: nat)
    requires NamesOnce(WellShaped(rows)) && i < |rows| && rows[i].Some? && i !in left
    ensures !HasEntry(WellShaped(Damaged(rows, left)), rows[i].value.trashed)
  {
    hide WellShaped;
    OnceIffOnce(rows);
    var ds := Damaged(rows, left);
    var es := WellShaped(ds);
    forall k | 0 <= k < |es| ensures es[k].trashed != rows[i].value.trashed {
      assert es[k] in es;
      ShapedRow(ds, es[k]);
      var j :| 0 <= j < |ds| && ds[j] == Some(es[k]);
    }
  }

  /** A manifest damaged in part is believed as it stands: the scope stays honest exactly when every row is left or none is. */
  lemma DamageDecides(st: State, scope: string, left: set<nat>)
    requires Honest(st, scope) && ManifestOf(st, scope).Rows?
    ensures Honest(After(st, Damage(scope, left)), scope) <==> !LosesSome(ManifestOf(st, scope).rows, left)
  {
    hide Faithful, WellShaped;
    var rows, st' := ManifestOf(st, scope).rows, After(st, Damage(scope, left));
    var ds := Damaged(rows, left);
    assert ManifestOf(st', scope) == Rows(ds);
    if forall i: nat :: i < |rows| && rows[i].Some? ==> i in left {
      assert ds == rows;
      HonestFrame(st, st', scope);
    } else {
      var i: nat :| i < |rows| && rows[i].Some? && i !in left;
      RowIsEntry(rows, i);
      BelievedIsFaithful(st, scope);
      SpoiltHasNoEntry(rows, left, i);
      NoEntryNotFaithful(st', scope, WellShaped(ds), rows[i].value.trashed);
      NoneLeftIff(rows, left);
    }
  }

  lemma RowIsEntry(rows: seq<Option<TaskEntry>>, i: nat)
    requires i < |rows| && rows[i].Some?
    ensures WellShaped(rows) != [] && HasEntry(WellShaped(rows), rows[i].value.trashed)
  {
    hide WellShaped;
    assert Some(rows[i].value) in rows;
    ShapedRow(rows, rows[i].value);
  }

  lemma BelievedIsFaithful(st: State, scope: string)
    requires Honest(st, scope) && !Rebuilds(ManifestOf(st, scope))
    ensures var es := Stored(ManifestOf(st, scope));
            NamesOnce(es) && forall name :: HasEntry(es, name) ==> Trashed(scope, name) in st.files
  {
  }

  lemma NoEntryNotFaithful(st: State, scope: string, entries: seq<TaskEntry>, name: string)
    requires Trashed(scope, name) in st.files && !HasEntry(entries, name)
    ensures !Faithful(entries, st, scope)
  {
  }

  lemma NoneLeftIff(rows: seq<Option<TaskEntry>>, left: set<nat>)
    ensures WellShaped(Damaged(rows, left)) == [] <==> forall i: nat :: i < |rows| && rows[i].Some? ==> i !in left
  {
    hide WellShaped;
    var ds := Damaged(rows, left);
    if WellShaped(ds) == [] {
      forall i: nat | i < |rows| && rows[i].Some? ensures i !in left {
        assert ds[i].Some? ==> WellShaped(ds) != [] by { if ds[i].Some? { RowIsEntry(ds, i); } }
      }
    } else {
      var e := WellShaped(ds)[0];
      ShapedRow(ds, e);
      var i :| 0 <= i < |ds| && ds[i] == Some(e);
    }
  }

  // ---- every step, exactly ----

  /** The actions after which a manifest is believed that does not name the scope's files. */
  predicate Breaks(st: State, a: Action, scope: string) {
    match a
    case Move(s, _, _, _, _, w) => s == scope && w.Skipped? && !Rebuilds(ManifestOf(st, scope))
    case Restore(s, ref, listing, _, w) =>
      s == scope && w.Skipped? && !Rebuilds(ManifestOf(st, scope)) && RestoreOutcome(st, scope, ref, listing).Restored?
    case Damage(s, left) => s == scope && ManifestOf(st, scope).Rows? && LosesSome(ManifestOf(st, scope).rows, left)
    case _ => false
  }

  lemma OtherIsHonest(st: State, a: Action, scope: string)
    requires Honest(st, scope) && (a.Close? || a.Write? || a.Remove? || a.Corrupt? || (a.Damage? && !ManifestOf(st, a.scope).Rows?))
    ensures Honest(After(st, a), scope)
  {
    hide Faithful, WellShaped;
    if !(a.Corrupt? && a.scope == scope) {
      HonestFrame(st, After(st, a), scope);
    }
  }

  lemma ElsewhereIsHonest(st: State, a: Action, scope: string)
    requires Honest(st, scope) && (a.Move? || a.Restore? || a.Damage?) && a.scope != scope
    requires a.Move? ==> !a.w.Complete?
    ensures Honest(After(st, a), scope)
  {
    hide Faithful, WellShaped, Read, Written, TrashName, LastMatch, Matches, Target;
    HonestFrame(st, After(st, a), scope);
  }

  lemma MovedElsewhere(st: State, a: Action, scope: string)
    requires Honest(st, scope) && a.Move? && a.scope != scope && Live(a.path) in st.files
    ensures Honest(Moved(st, a.scope, a.path, a.listing, a.now, a.n, a.w), scope)
  {
    hide Faithful, WellShaped, Read, Written, TrashName;
    HonestFrame(st, Moved(st, a.scope, a.path, a.listing, a.now, a.n, a.w), scope);
  }

  lemma SweepAfterMove(st: State, scope: string, now: nat)
    ensures Honest(Swept(st, now, Some(scope)), scope) <==> Honest(st, scope)
  {
    HonestFrame(st, Swept(st, now, Some(scope)), scope);
  }

  /** One step keeps a scope honest exactly when it is none of these. */
  lemma StepKeepsExactly(st: State, a: Action, scope: string)
    requires Honest(st, scope) && Enabled(st, a)
    ensures Honest(After(st, a), scope) <==> !Breaks(st, a, scope)
  {
    hide Honest, Moved, AfterRestore, Swept, Closed, Rebuilds, LosesSome, Damaged;
    match a
    case Move(s, path, listing, now, n, w) =>
      if s == scope {
        MoveDecides(st, scope, path, listing, now, n, w);
        SweepAfterMove(Moved(st, s, path, listing, now, n, w), scope, now);
      } else {
        MovedElsewhere(st, a, scope);
        SweepKeepsHonest(Moved(st, s, path, listing, now, n, w), now, Some(s), scope);
      }
    case Restore(s, ref, listing, now, w) =>
      if s == scope { RestoreDecides(st, scope, ref, listing, now, w); } else { ElsewhereIsHonest(st, a, scope); }
    case Sweep(now) => SweepKeepsHonest(st, now, None, scope);
    case Damage(s, left) =>
      if s != scope { ElsewhereIsHonest(st, a, scope); }
      else if ManifestOf(st, scope).Rows? { DamageDecides(st, scope, left); }
      else { OtherIsHonest(st, a, scope); }
    case _ => OtherIsHonest(st, a, scope);
  }

  ghost predicate HonestThroughout(st: State, run: seq<Action>, scope: string)
    decreases |run|
  {
    Honest(st, scope) && (run == [] || HonestThroughout(After(st, run[0]), run[1..], scope))
  }

  ghost predicate NeverBreaks(st: State, run: seq<Action>, scope: string)
    decreases |run|
  {
    run == [] || (!Breaks(st, run[0], scope) && NeverBreaks(After(st, run[0]), run[1..], scope))
  }

  /**
   Over any run from a state in which the scope is honest, the empty trash for one, the scope's manifest and its files
   stay in bijection, or ready to be recovered, exactly as long as no manifest write is skipped over one that is
   believed and no manifest that is believed loses some of its rows.
   */
  lemma {:induction false} ManifestsMatchFiles(st: State, run: seq<Action>, scope: string)
    requires Honest(st, scope) && IsRun(st, run)
    ensures HonestThroughout(st, run, scope) <==> NeverBreaks(st, run, scope)
    decreases |run|
  {
    hide Honest, After, Enabled, Breaks;
    if run != [] {
      StepKeepsExactly(st, run[0], scope);
      if Honest(After(st, run[0]), scope) {
        ManifestsMatchFiles(After(st, run[0]), run[1..], scope);
      } else {
        NotHonestThroughout(After(st, run[0]), run[1..], scope);
      }
    }
  }

  lemma NotHonestThroughout(st: State, run: seq<Action>, scope: string)
    requires !Honest(st, scope)
    ensures !HonestThroughout(st, run, scope)
  {
  }

  lemma EmptyIsHonest(scope: string)
    ensures Honest(State(map[], map[]), scope)
  {
  }

  // ---- files no one finds ----

  /** On disk, while the manifest that is believed has no entry for it. */
  predicate Orphaned(st: State, scope: string, name: string) {
    var m := ManifestOf(st, scope);
    Trashed(scope, name) in st.files && !Rebuilds(m) && !HasEntry(Stored(m), name)
  }

  /** No restore takes up an orphaned file, whatever it names. */
  lemma OrphanIsNotFound(st: State, scope: string, name: string, ref: Ref, listing: seq<Listed>, now: nat, w: ManifestWrite)
    requires Orphaned(st, scope, name)
    ensures Trashed(scope, name) in AfterRestore(st, scope, ref, listing, now, w).files
  {
    hide Written, Matches, Target;
    ReadIsStored(ManifestOf(st, scope), listing);
  }

  /** A move whose manifest is not written orphans its file exactly when the scope's manifest is not one to be rebuilt. */
  lemma UnwrittenMoveOrphans(st: State, scope: string, path: Path, listing: seq<Listed>, now: nat, n: nat)
    requires Honest(st, scope) && Live(path) in st.files && IsListing(st, scope, listing)
    requires FirstFree(st, scope, path.base, now, n)
    ensures Orphaned(Moved(st, scope, path, listing, now, n, Skipped), scope, TrashName(path.base, now, n))
            <==> !Rebuilds(ManifestOf(st, scope))
  {
    hide Faithful, Read, IsListing, WellShaped, TrashName, Rebuilds;
    var m, st' := ManifestOf(st, scope), Moved(st, scope, path, listing, now, n, Skipped);
    if !Rebuilds(m) {
      NewFileHasNoEntry(st, st', scope, Stored(m), TrashName(path.base, now, n));
    }
  }

  /** So the first file a scope ever gets is lost to every restore when its manifest is not written. */
  lemma FirstMoveUnwritten(st: State, scope: string, path: Path, listing: seq<Listed>, now: nat, n: nat)
    requires scope !in st.scopes && Live(path) in st.files
    ensures var st' := Moved(st, scope, path, listing, now, n, Skipped);
            && Trashed(scope, TrashName(path.base, now, n)) in st'.files
            && forall ref, listing' :: RestoreOutcome(st', scope, ref, listing') == NoMatch
  {
    hide TrashName, Matches;
  }

  /** A file whose row is spoilt is orphaned exactly when some other row is left. */
  lemma DamageOrphans(st: State, scope: string, left: set<nat>, i: nat)
    requires Honest(st, scope) && ManifestOf(st, scope).Rows?
    requires i < |ManifestOf(st, scope).rows| && ManifestOf(st, scope).rows[i].Some? && i !in left
    ensures Orphaned(After(st, Damage(scope, left)), scope, ManifestOf(st, scope).rows[i].value.trashed)
            <==> LosesSome(ManifestOf(st, scope).rows, left)
  {
    hide Faithful, WellShaped;
    var rows, st' := ManifestOf(st, scope).rows, After(st, Damage(scope, left));
    assert ManifestOf(st', scope) == Rows(Damaged(rows, left));
    RowIsEntry(rows, i);
    BelievedIsFaithful(st, scope);
    SpoiltHasNoEntry(rows, left, i);
    NoneLeftIff(rows, left);
  }

  /** A restore whose manifest is not written gives the file back all the same, and answers with an error. */
  lemma UnwrittenRestore(st: State, scope: string, ref: Ref, listing: seq<Listed>, now: nat, w: ManifestWrite)
    requires RestoreOutcome(st, scope, ref, listing).Restored? && !w.Complete?
    ensures RestoreAnswer(st, scope, ref, listing, w) == WriteFailed
    ensures AfterRestore(st, scope, ref, listing, now, w).files == AfterRestore(st, scope, ref, listing, now, Complete).files
  {
    hide Read, Written, LastMatch, Matches, Target;
  }

  // ---- bytes are conserved ----

  ghost function Contents(m: map<Place, string>): multiset<string>
    decreases |m|
  {
    if m == map[] then multiset{}
    else
      var p :| p in m;
      multiset{m[p]} + Contents(m - {p})
  }

  lemma Picked(m: map<Place, string>) returns (q: Place)
    requires m != map[]
    ensures q in m && Contents(m) == multiset{m[q]} + Contents(m - {q})
  {
    q :| q in m && Contents(m) == multiset{m[q]} + Contents(m - {q});
  }

  lemma {:induction false} TakeOut(m: map<Place, string>, p: Place)
    requires p in m
    ensures Contents(m) == multiset{m[p]} + Contents(m - {p})
    decreases |m|
  {
    hide Contents;
    var q := Picked(m);
    if p != q {
      TakeOut(m - {q}, p);
      TakeOut(m - {p}, q);
      assert m - {q} - {p} == m - {p} - {q};
    }
  }

  /** Moving one file to a free place changes no content. */
  lemma Relocate(m: map<Place, string>, p: Place, q: Place)
    requires p in m && q !in m
    ensures Contents((m - {p})[q := m[p]]) == Contents(m)
  {
    hide Contents;
    var m' := (m - {p})[q := m[p]];
    TakeOut(m, p);
    TakeOut(m', q);
    assert m' - {q} == m - {p};
  }

  lemma {:induction false} Part(m: map<Place, string>, a: map<Place, string>, b: map<Place, string>)
    requires forall p :: p in m <==> p in a || p in b
    requires forall p :: p in a ==> p !in b && m[p] == a[p]
    requires forall p :: p in b ==> m[p] == b[p]
    ensures Contents(m) == Contents(a) + Contents(b)
    decreases |m|
  {
    hide Contents;
    if a == map[] {
      NoContents();
      assert m == b;
    } else {
      var p :| p in a;
      TakeOut(m, p);
      TakeOut(a, p);
      Part(m - {p}, a - {p}, b);
    }
  }

  /** What a sweep takes away: the files of the scopes it found expired. */
  function Lost(st: State, now: nat, exclude: Option<string>): map<Place, string> {
    map p | p in st.files && p.Trashed? && Sweeps(st, p.scope, now, exclude) :: st.files[p]
  }

  predicate OfTheTrash(a: Action) { !a.Write? && !a.Remove? }

  /** What one action of the trash sweeps. */
  function LostBy(st: State, a: Action): map<Place, string> {
    match a
    case Move(scope, path, listing, now, n, w) =>
      if Live(path) in st.files && w.Complete? then Lost(Moved(st, scope, path, listing, now, n, w), now, Some(scope)) else map[]
    case Sweep(now) => Lost(st, now, None)
    case _ => map[]
  }

  lemma SweepConserves(st: State, now: nat, exclude: Option<string>)
    ensures Contents(st.files) == Contents(Swept(st, now, exclude).files) + Contents(Lost(st, now, exclude))
  {
    hide Expired;
    Part(st.files, Swept(st, now, exclude).files, Lost(st, now, exclude));
  }

  /** One action neither loses, copies nor alters content, beyond what it sweeps. */
  lemma StepConserves(st: State, a: Action)
    requires Enabled(st, a) && OfTheTrash(a)
    ensures Contents(st.files) == Contents(After(st, a).files) + Contents(LostBy(st, a))
  {
    hide Contents, Read, Written, TrashName, LastMatch, Matches, Swept, Lost, Target;
    assert Contents(map[]) == multiset{} by { NoContents(); }
    match a
    case Move(scope, path, listing, now, n, w) =>
      Relocate(st.files, Live(path), Trashed(scope, TrashName(path.base, now, n)));
      SweepConserves(Moved(st, scope, path, listing, now, n, w), now, Some(scope));
    case Restore(scope, ref, listing, now, w) =>
      var result := RestoreOutcome(st, scope, ref, listing);
      if result.Restored? {
        var entries := Read(ManifestOf(st, scope), listing);
        Relocate(st.files, Trashed(scope, entries[LastMatch(entries, ref).value].trashed), Live(result.path));
      }
    case Sweep(now) => SweepConserves(st, now, None);
    case _ =>
  }

  lemma NoContents()
    ensures Contents(map[]) == multiset{}
  {
  }

  ghost function LostAlong(st: State, run: seq<Action>): multiset<string>
    decreases |run|
  {
    if run == [] then multiset{} else Contents(LostBy(st, run[0])) + LostAlong(After(st, run[0]), run[1..])
  }

  /** Over a whole run the live files and the trash together hold what they held, less what expired. */
  lemma {:induction false} BytesAreConserved(st: State, run: seq<Action>)
    requires IsRun(st, run) && forall a :: a in run ==> OfTheTrash(a)
    ensures Contents(st.files) == Contents(AfterAll(st, run).files) + LostAlong(st, run)
    decreases |run|
  {
    hide Contents, After, Enabled, LostBy;
    if run != [] {
      assert run[0] in run && (forall a :: a in run[1..] ==> a in run);
      StepConserves(st, run[0]);
      BytesAreConserved(After(st, run[0]), run[1..]);
    }
  }

  /** The file an action takes up, if any. */
  function Source(st: State, a: Action): Option<Place> {
    match a
    case Move(_, path, _, _, _, _) => Some(Live(path))
    case Restore(scope, ref, listing, _, _) =>
      if RestoreOutcome(st, scope, ref, listing).Restored?
      then
        var entries := Read(ManifestOf(st, scope), listing);
        Some(Trashed(scope, entries[LastMatch(entries, ref).value].trashed))
      else None
    case _ => None
  }

  /** No action of the trash overwrites: a place that held a file holds the same bytes, or was taken up, or expired. */
  lemma NothingIsOverwritten(st: State, a: Action, p: Place)
    requires Enabled(st, a) && OfTheTrash(a) && p in st.files
    ensures || (p in After(st, a).files && After(st, a).files[p] == st.files[p])
            || Source(st, a) == Some(p)
            || p in LostBy(st, a)
  {
    hide Read, Written, TrashName, LastMatch, Matches, Target, Expired;
  }

  // ---- a recently used scope is not swept ----

  /** The scope was active, and if closed then closed, no earlier than t0. */
  predicate Fresh(st: State, scope: string, t0: int, window: int) {
    && scope in st.scopes && st.scopes[scope].mtime >= t0
    && (st.scopes[scope].closedAt.Some? ==> st.scopes[scope].closedAt.value >= t0 && window <= TASK_TRASH_TTL_MS)
  }

  function TimeOf(a: Action): Option<nat> {
    match a
    case Move(_, _, _, now, _, _) => Some(now)
    case Restore(_, _, _, now, _) => Some(now)
    case Close(_, now) => Some(now)
    case Sweep(now) => Some(now)
    case _ => None
  }

  /** Happens within the window after t0, and closes the scope only when the window is that of a closed scope. */
  predicate Within(a: Action, scope: string, t0: int, window: int) {
    && (TimeOf(a).Some? ==> t0 <= TimeOf(a).value <= t0 + window)
    && (a.Close? && a.scope == scope ==> window <= TASK_TRASH_TTL_MS)
  }

  lemma StepStaysFresh(st: State, a: Action, scope: string, t0: int, window: int)
    requires Fresh(st, scope, t0, window) && Within(a, scope, t0, window) && window <= RETENTION_MS
    ensures Fresh(After(st, a), scope, t0, window)
    ensures forall name :: Trashed(scope, name) !in LostBy(st, a)
  {
    hide Read, Written, TrashName, LastMatch, Matches, RestoreOutcome;
  }

  lemma MoveIsFresh(st: State, a: Action, window: int)
    requires a.Move? && Live(a.path) in st.files
    ensures Fresh(After(st, a), a.scope, a.now, window)
  {
    hide Read, Written, TrashName;
  }

  /** A scope that received a file survives every sweep for 24 hours, and for 30 days if it is not closed. */
  lemma {:induction false} ActiveScopeSurvives(st: State, run: seq<Action>, scope: string, t0: int, window: int)
    requires Fresh(st, scope, t0, window) && window <= RETENTION_MS
    requires forall a :: a in run ==> Within(a, scope, t0, window)
    ensures Fresh(AfterAll(st, run), scope, t0, window)
    decreases |run|
  {
    hide Fresh, After, Within;
    if run != [] {
      assert run[0] in run && (forall a :: a in run[1..] ==> a in run);
      StepStaysFresh(st, run[0], scope, t0, window);
      ActiveScopeSurvives(After(st, run[0]), run[1..], scope, t0, window);
    }
  }
}
