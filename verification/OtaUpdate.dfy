/**
 The over-the-air update transaction: a journal anchored in the install, a backup of every file
 the update overwrites, the copy, and the restore. Any step can throw, and the process can die
 between any two writes to disk, in the middle of a file included.
 */
module OtaUpdate {
  import opened Wrappers
  import opened OtaTree

  // ---- what is on disk ----

  datatype Status = BackingUp | Active | Applied | Verified | Restored

  /** A path the update overwrites and the content it had: the digest of a file stands for its content. */
  datatype Entry = Entry(path: Rel, before: Option<string>)

  datatype Journal = Journal(status: Status, previousVersion: string, targetVersion: string, entries: seq<Entry>)

  datatype Anchor = Anchor(journal: Journal, previous: Option<Journal>)

  type Files = map<Rel, string>

  datatype Disk = Disk(install: Files, backup: Files, anchor: Option<Anchor>, journal: Option<Journal>, receipt: Option<string>)

  function Find(entries: seq<Entry>, path: Rel): Option<Entry> {
    if entries == [] then None else if entries[0].path == path then Some(entries[0]) else Find(entries[1..], path)
  }

  function PathsOf(entries: seq<Entry>): set<Rel> { set e | e in entries :: e.path }

  /** The entries as a map of what was there, and the paths that were absent. */
  function Rewound(install: Files, entries: seq<Entry>): Files {
    (map p | p in install && p !in PathsOf(entries) :: install[p])
    + (map p | p in PathsOf(entries) && Find(entries, p).Some? && Find(entries, p).value.before.Some? :: Find(entries, p).value.before.value)
  }

  /** The install the disk stands for: what recovery would bring back while a transaction is open. */
  function Recovered(d: Disk): Files {
    match d.anchor
    case None => d.install
    case Some(a) => if a.journal.status.Active? || a.journal.status.Applied? then Rewound(d.install, a.journal.entries) else d.install
  }

  /** The install a restore makes: a verified transaction too can still be undone. */
  function Undone(d: Disk): Files {
    if d.anchor.Some? && d.anchor.value.journal.status.Verified? then Rewound(d.install, d.anchor.value.journal.entries)
    else Recovered(d)
  }

  /** Every file that will have to come back is in the backup, intact. */
  ghost predicate BackedUp(backup: Files, entries: seq<Entry>) {
    forall e :: e in entries && e.before.Some? ==> e.path in backup && backup[e.path] == e.before.value
  }

  ghost predicate DistinctPaths(entries: seq<Entry>) {
    forall i, j :: 0 <= i < j < |entries| ==> entries[i].path != entries[j].path
  }

  /** The journal is the anchored one or the one it displaced; an open transaction has its backups. */
  ghost predicate Consistent(d: Disk) {
    && (d.journal.Some? ==> d.anchor.Some? && (d.journal.value == d.anchor.value.journal || d.journal == d.anchor.value.previous))
    && (d.anchor.Some? ==>
          var j := d.anchor.value.journal;
          && DistinctPaths(j.entries)
          && (j.status.Active? || j.status.Applied? ==> BackedUp(d.backup, j.entries)))
  }

  /** Anchor and journal agree. */
  ghost predicate Bound(d: Disk) { d.anchor.Some? && d.journal == Some(d.anchor.value.journal) }

  // ---- facts about rewinding ----

  lemma {:induction false} FindEntry(entries: seq<Entry>, path: Rel)
    ensures Find(entries, path).Some? <==> path in PathsOf(entries)
    ensures Find(entries, path).Some? ==> Find(entries, path).value in entries && Find(entries, path).value.path == path
  {
    if entries != [] { FindEntry(entries[1..], path); }
  }

  lemma {:induction false} FindAt(entries: seq<Entry>, i: nat)
    requires DistinctPaths(entries) && i < |entries|
    ensures Find(entries, entries[i].path) == Some(entries[i])
  {
    if i > 0 { FindAt(entries[1..], i - 1); }
  }

  /** Changes at the transaction's own paths do not change what it rewinds to. */
  lemma RewoundIgnores(a: Files, b: Files, entries: seq<Entry>)
    requires SameOutside(a, b, PathsOf(entries))
    ensures Rewound(a, entries) == Rewound(b, entries)
  {
  }

  /** With every entry back as it was, rewinding changes nothing. */
  lemma RewoundIsSame(install: Files, entries: seq<Entry>)
    requires forall p :: p in PathsOf(entries) ==> Find(entries, p).Some? && AsBefore(install, Find(entries, p).value)
    ensures Rewound(install, entries) == install
  {
    forall p | p in PathsOf(entries) ensures Find(entries, p).value.path == p {
      FindEntry(entries, p);
    }
  }

  predicate AsBefore(install: Files, e: Entry) {
    if e.before.Some? then e.path in install && install[e.path] == e.before.value else e.path !in install
  }

  lemma AllAsBefore(install: Files, entries: seq<Entry>)
    requires DistinctPaths(entries) && forall e :: e in entries ==> AsBefore(install, e)
    ensures Rewound(install, entries) == install
  {
    forall p | p in PathsOf(entries) ensures Find(entries, p).Some? && AsBefore(install, Find(entries, p).value) {
      FindEntry(entries, p);
    }
    RewoundIsSame(install, entries);
  }

  /** The two agree on every path outside a set. */
  ghost predicate SameOutside(a: Files, b: Files, touched: set<Rel>) {
    forall p :: p !in touched ==> (p in a <==> p in b) && (p in a ==> a[p] == b[p])
  }

  lemma Unchanged(a: Files, touched: set<Rel>)
    ensures SameOutside(a, a, touched) && Apply(a, []) == a
  {
  }

  lemma SameTwice(a: Files, b: Files, c: Files, touched: set<Rel>)
    requires SameOutside(a, b, touched) && SameOutside(b, c, touched)
    ensures SameOutside(a, c, touched)
  {
  }

  /** The entries from i on are as they were. */
  ghost predicate RestoredFrom(install: Files, entries: seq<Entry>, i: int) {
    forall k :: 0 <= i <= k < |entries| ==> AsBefore(install, entries[k])
  }

  lemma NoneRestored(install: Files, entries: seq<Entry>)
    ensures RestoredFrom(install, entries, |entries|) && SameOutside(install, install, PathsOf(entries))
  {
  }

  lemma OneMoreBack(now: Files, before: Files, was: Files, entries: seq<Entry>, i: nat, ok: bool)
    requires DistinctPaths(entries) && i < |entries| && RestoredFrom(before, entries, i + 1)
    requires SameOutside(before, was, PathsOf(entries)) && SameOutside(now, before, {entries[i].path})
    requires ok ==> AsBefore(now, entries[i])
    ensures SameOutside(now, was, PathsOf(entries)) && (ok ==> RestoredFrom(now, entries, i))
  {
    assert entries[i] in entries && entries[i].path in PathsOf(entries);
    forall k | i < k < |entries| ensures entries[k].path != entries[i].path && AsBefore(now, entries[k]) {
    }
  }

  lemma AllRestored(install: Files, entries: seq<Entry>)
    requires DistinctPaths(entries) && RestoredFrom(install, entries, 0)
    ensures Rewound(install, entries) == install
  {
    AllAsBefore(install, entries);
  }

  /** What one child that is not skipped writes. */
  function ChildWrites(c: Child, prefix: Rel): seq<Write> {
    match c.node
    case File(text) => [Write(prefix + [c.name], text)]
    case Dir(inner) => Writes(inner, prefix + [c.name], false)
    case Link => []
  }

  /** The first i children are copied, and nothing outside the allowed paths is touched. */
  ghost predicate CopiedUpTo(now: Files, was: Files, children: seq<Child>, i: nat, prefix: Rel, top: bool, allowed: set<Rel>) {
    i <= |children| && SameOutside(now, was, allowed) && now == Apply(was, Writes(children[..i], prefix, top))
  }

  lemma {:induction false} WritesAppend(a: seq<Child>, b: seq<Child>, prefix: Rel, top: bool)
    ensures Writes(a + b, prefix, top) == Writes(a, prefix, top) + Writes(b, prefix, top)
    decreases |a|
  {
    hide Skipped;
    if a == [] {
      assert a + b == b;
    } else {
      assert (a + b)[0] == a[0] && (a + b)[1..] == a[1..] + b;
      WritesAppend(a[1..], b, prefix, top);
    }
  }

  lemma WritesOfOne(c: Child, prefix: Rel, top: bool)
    ensures Writes([c], prefix, top) == if Skipped(c, top) then [] else ChildWrites(c, prefix)
  {
    assert Writes([c][1..], prefix, top) == [];
  }

  lemma WritesUpTo(children: seq<Child>, i: nat, prefix: Rel, top: bool)
    requires i < |children|
    ensures Writes(children[..i + 1], prefix, top)
            == Writes(children[..i], prefix, top) + if Skipped(children[i], top) then [] else ChildWrites(children[i], prefix)
  {
    hide Writes, Skipped, ChildWrites;
    assert children[..i + 1] == children[..i] + [children[i]];
    WritesAppend(children[..i], [children[i]], prefix, top);
    WritesOfOne(children[i], prefix, top);
  }

  lemma ChildIsAllowed(children: seq<Child>, i: nat, prefix: Rel, top: bool, allowed: set<Rel>)
    requires i < |children| && !Skipped(children[i], top) && forall w :: w in Writes(children, prefix, top) ==> w.path in allowed
    ensures !children[i].node.Link? && forall w :: w in ChildWrites(children[i], prefix) ==> w.path in allowed
  {
    hide Writes, ChildWrites;
    WritesUpTo(children, i, prefix, top);
    assert children == children[..i + 1] + children[i + 1..];
    WritesAppend(children[..i + 1], children[i + 1..], prefix, top);
  }

  lemma NothingCopied(now: Files, children: seq<Child>, prefix: Rel, top: bool, allowed: set<Rel>)
    ensures CopiedUpTo(now, now, children, 0, prefix, top, allowed)
  {
    Unchanged(now, allowed);
    assert Writes(children[..0], prefix, top) == [];
  }

  lemma SkipOne(now: Files, was: Files, children: seq<Child>, i: nat, prefix: Rel, top: bool, allowed: set<Rel>)
    requires i < |children| && Skipped(children[i], top) && CopiedUpTo(now, was, children, i, prefix, top, allowed)
    ensures CopiedUpTo(now, was, children, i + 1, prefix, top, allowed)
  {
    hide Writes, Apply, SameOutside;
    WritesUpTo(children, i, prefix, top);
    assert Writes(children[..i], prefix, top) + [] == Writes(children[..i], prefix, top);
  }

  lemma CopyOne(now: Files, before: Files, was: Files, children: seq<Child>, i: nat, prefix: Rel, top: bool, allowed: set<Rel>, ok: bool)
    requires i < |children| && !Skipped(children[i], top) && CopiedUpTo(before, was, children, i, prefix, top, allowed)
    requires SameOutside(now, before, allowed) && (ok ==> now == Apply(before, ChildWrites(children[i], prefix)))
    ensures SameOutside(now, was, allowed) && (ok ==> CopiedUpTo(now, was, children, i + 1, prefix, top, allowed))
  {
    hide Writes, Apply, SameOutside, ChildWrites, Skipped;
    SameTwice(now, before, was, allowed);
    WritesUpTo(children, i, prefix, top);
    ApplyAppend(was, Writes(children[..i], prefix, top), ChildWrites(children[i], prefix));
  }

  lemma AllCopied(now: Files, was: Files, children: seq<Child>, prefix: Rel, top: bool, allowed: set<Rel>)
    requires CopiedUpTo(now, was, children, |children|, prefix, top, allowed)
    ensures SameOutside(now, was, allowed) && now == Apply(was, Writes(children, prefix, top))
  {
    assert children[..|children|] == children;
  }

  // ---- recording what is there ----

  function EntryNow(install: Files, path: Rel): Entry {
    Entry(path, if path in install then Some(install[path]) else None)
  }

  /** One entry for each path listed, with what the install holds there. */
  ghost predicate Recorded(install: Files, paths: seq<Rel>, entries: seq<Entry>) {
    && DistinctPaths(entries) && PathsOf(entries) == (set p | p in paths)
    && forall e :: e in entries ==> AsBefore(install, e)
  }

  lemma NothingRecorded(install: Files, paths: seq<Rel>)
    ensures Recorded(install, paths[..0], [])
  {
  }

  lemma RecordedAgain(install: Files, paths: seq<Rel>, i: nat, entries: seq<Entry>)
    requires i < |paths| && paths[i] in paths[..i] && Recorded(install, paths[..i], entries)
    ensures Recorded(install, paths[..i + 1], entries)
  {
    assert paths[..i + 1] == paths[..i] + [paths[i]];
  }

  lemma RecordedMore(install: Files, paths: seq<Rel>, i: nat, entries: seq<Entry>)
    requires i < |paths| && paths[i] !in paths[..i] && Recorded(install, paths[..i], entries)
    ensures Recorded(install, paths[..i + 1], entries + [EntryNow(install, paths[i])])
  {
    var more := entries + [EntryNow(install, paths[i])];
    assert paths[..i + 1] == paths[..i] + [paths[i]];
    assert PathsOf(more) == PathsOf(entries) + {paths[i]};
    forall k | 0 <= k < |entries| ensures entries[k].path != paths[i] {
      assert entries[k] in entries && entries[k].path in PathsOf(entries);
    }
  }

  // ---- faults ----

  /** What the next step that can fail does. */
  datatype Fault = Fine | Throws | Dies

  datatype Result = Ok | Threw | Crashed

  function Faults(fs: seq<Fault>): nat {
    if fs == [] then 0 else (if fs[0].Fine? then 0 else 1) + Faults(fs[1..])
  }

  class Updater {
    var install: Files
    var backup: Files
    var anchor: Option<Anchor>
    var journal: Option<Journal>
    var receipt: Option<string>
    var faults: seq<Fault>
    /** Case folding of paths, path safety, and the anchor's own path. */
    const fold: Rel -> Rel
    const safe: Rel -> bool
    const anchorPath: Rel

    ghost function Abs(): Disk
      reads this
    {
      Disk(install, backup, anchor, journal, receipt)
    }

    constructor (install: Files, fold: Rel -> Rel, safe: Rel -> bool, anchorPath: Rel, faults: seq<Fault>)
      ensures Abs() == Disk(install, map[], None, None, None) && Consistent(Abs()) && Recovered(Abs()) == install
      ensures this.faults == faults
    {
      this.install, backup, anchor, journal, receipt, this.faults := install, map[], None, None, None, faults;
      this.fold, this.safe, this.anchorPath := fold, safe, anchorPath;
    }

    method Tick() returns (r: Result)
      modifies this`faults
      ensures r.Ok? ==> Faults(faults) == Faults(old(faults))
      ensures !r.Ok? ==> Faults(faults) + 1 == Faults(old(faults))
    {
      if faults == [] {
        return Ok;
      }
      var f := faults[0];
      faults := faults[1..];
      return match f case Fine => Ok case Throws => Threw case Dies => Crashed;
    }

    /** Replace one file of the install: until the last write it may hold anything. */
    method WriteInstall(path: Rel, text: string, torn: string) returns (r: Result)
      modifies this`install, this`faults
      ensures forall p :: p != path ==> (p in install <==> p in old(install)) && (p in install ==> install[p] == old(install)[p])
      ensures r.Ok? ==> install == old(install)[path := text]
      ensures Faults(faults) <= Faults(old(faults)) && (r.Ok? || Faults(faults) < Faults(old(faults)))
    {
      r := Tick();
      if !r.Ok? {
        return;
      }
      install := install[path := torn];
      r := Tick();
      if !r.Ok? {
        return;
      }
      install := install[path := text];
    }

    /** read: the anchor is authoritative and the journal is brought in step with it. */
    method Read() returns (r: Result, pending: Option<Journal>)
      requires Consistent(Abs())
      modifies this`journal, this`faults
      ensures Consistent(Abs())
      ensures r.Ok? ==> pending == (if anchor.Some? then Some(anchor.value.journal) else None) && journal == pending
      ensures Faults(faults) <= Faults(old(faults)) && (r.Ok? || Faults(faults) < Faults(old(faults)))
    {
      r, pending := Ok, None;
      if anchor.None? {
        return;
      }
      if journal != Some(anchor.value.journal) {
        r := Tick();
        if !r.Ok? {
          return;
        }
        journal := Some(anchor.value.journal);
      }
      pending := journal;
    }

    /** persist: publish the anchor, then the journal. */
    method Persist(next: Journal, previous: Option<Journal>) returns (r: Result)
      requires Consistent(Abs()) && (if previous.Some? then Bound(Abs()) && journal == previous else anchor.None?)
      requires DistinctPaths(next.entries)
      requires next.status.Active? || next.status.Applied? ==> BackedUp(backup, next.entries)
      modifies this`anchor, this`journal, this`faults
      ensures Consistent(Abs())
      ensures r.Ok? ==> Bound(Abs()) && journal == Some(next)
      ensures anchor == old(anchor) || anchor == Some(Anchor(next, previous))
      ensures Faults(faults) <= Faults(old(faults)) && (r.Ok? || Faults(faults) < Faults(old(faults)))
    {
      r := Tick();
      if !r.Ok? {
        return;
      }
      anchor := Some(Anchor(next, previous));
      r := Tick();
      if !r.Ok? {
        return;
      }
      journal := Some(next);
      r := Tick();
    }

    /** The entries of a transaction: each listed path once, with what it holds now. */
    method RecordEntries(paths: seq<Rel>) returns (r: Result, entries: seq<Entry>)
      modifies this`faults
      ensures r.Ok? ==> Recorded(install, paths, entries)
      ensures Faults(faults) <= Faults(old(faults))
    {
      hide Recorded, Faults;
      r, entries := Ok, [];
      NothingRecorded(install, paths);
      for i := 0 to |paths|
        invariant r.Ok? && Faults(faults) <= Faults(old(faults))
        invariant Recorded(install, paths[..i], entries)
      {
        if paths[i] in paths[..i] {
          RecordedAgain(install, paths, i, entries);
          continue;
        }
        if !safe(paths[i]) || fold(paths[i]) == fold(anchorPath) || exists k :: 0 <= k < i && fold(paths[k]) == fold(paths[i]) {
          r := Threw;
          return;
        }
        r := Tick();
        if !r.Ok? {
          return;
        }
        RecordedMore(install, paths, i, entries);
        entries := entries + [EntryNow(install, paths[i])];
      }
      assert paths[..|paths|] == paths;
    }

    /** Copy what will be overwritten into the backup, one file at a time. */
    method CopyToBackup(entries: seq<Entry>, torn: string) returns (r: Result)
      requires DistinctPaths(entries) && forall e :: e in entries ==> AsBefore(install, e)
      modifies this`backup, this`faults
      ensures r.Ok? ==> BackedUp(backup, entries)
      ensures Faults(faults) <= Faults(old(faults)) && (r.Ok? || Faults(faults) < Faults(old(faults)))
    {
      r := Ok;
      for i := 0 to |entries|
        invariant r.Ok? && Faults(faults) <= Faults(old(faults))
        invariant BackedUp(backup, entries[..i])
      {
        var e := entries[i];
        assert e in entries && entries[..i + 1] == entries[..i] + [e];
        if e.before.None? {
          continue;
        }
        r := Tick();
        if !r.Ok? {
          return;
        }
        backup := backup[e.path := torn];
        r := Tick();
        if !r.Ok? {
          return;
        }
        backup := backup[e.path := install[e.path]];
      }
      assert entries[..|entries|] == entries;
    }

    /** begin: journal the plan, back up, and only then declare the transaction active. */
    method Begin(previousVersion: string, targetVersion: string, paths: seq<Rel>, torn: string) returns (r: Result)
      requires Consistent(Abs())
      modifies this`backup, this`anchor, this`journal, this`faults
      ensures Consistent(Abs()) && Recovered(Abs()) == old(Recovered(Abs()))
      ensures r.Ok? ==> old(anchor).None? && Bound(Abs()) && journal.value.status.Active?
      ensures r.Ok? ==> journal.value.targetVersion == targetVersion && PathsOf(journal.value.entries) == (set p | p in paths)
      ensures Faults(faults) <= Faults(old(faults))
    {
      var pending;
      r, pending := Read();
      if !r.Ok? {
        return;
      }
      if pending.Some? {
        return Threw;
      }
      var entries;
      r, entries := RecordEntries(paths);
      if !r.Ok? {
        return;
      }
      var plan := Journal(BackingUp, previousVersion, targetVersion, entries);
      r := Persist(plan, None);
      if !r.Ok? {
        return;
      }
      r := CopyToBackup(entries, torn);
      if !r.Ok? {
        return;
      }
      AllAsBefore(install, entries);
      r := Persist(plan.(status := Active), Some(plan));
    }

    /** The pending transaction towards this version, or a refusal. */
    method Require(targetVersion: string) returns (r: Result, pending: Option<Journal>)
      requires Consistent(Abs())
      modifies this`journal, this`faults
      ensures Consistent(Abs())
      ensures r.Ok? ==> Bound(Abs()) && pending == journal && journal.value.targetVersion == targetVersion
      ensures Faults(faults) <= Faults(old(faults))
      ensures anchor.Some? && anchor.value.journal.targetVersion == targetVersion ==> r.Ok? || Faults(faults) < Faults(old(faults))
    {
      r, pending := Read();
      if !r.Ok? {
        return;
      }
      if pending.None? || pending.value.targetVersion != targetVersion {
        r := Threw;
      }
    }

    /** copyDirectory: the walk that overwrites the install. */
    method CopyDirectory(children: seq<Child>, prefix: Rel, top: bool, torn: string, ghost allowed: set<Rel>) returns (r: Result)
      requires forall w :: w in Writes(children, prefix, top) ==> w.path in allowed
      modifies this`install, this`faults
      ensures SameOutside(install, old(install), allowed)
      ensures r.Ok? ==> install == Apply(old(install), Writes(children, prefix, top))
      ensures r.Ok? && prefix == [] && top ==> Updated(children, old(install), install)
      ensures Faults(faults) <= Faults(old(faults)) && (r.Ok? || Faults(faults) < Faults(old(faults)))
      decreases children
    {
      CopyUpdates(children, install);
      hide Updated, Apply, SameOutside, Faults, ChildWrites, Writes, CopiedUpTo, Skipped;
      r := Ok;
      NothingCopied(install, children, prefix, top, allowed);
      for i := 0 to |children|
        invariant r.Ok? && Faults(faults) <= Faults(old(faults))
        invariant CopiedUpTo(install, old(install), children, i, prefix, top, allowed)
      {
        var c := children[i];
        if Skipped(c, top) {
          SkipOne(install, old(install), children, i, prefix, top, allowed);
          continue;
        }
        ghost var before := install;
        ChildIsAllowed(children, i, prefix, top, allowed);
        r := CopyChild(c, prefix, torn, allowed);
        CopyOne(install, before, old(install), children, i, prefix, top, allowed, r.Ok?);
        if !r.Ok? {
          return;
        }
      }
      AllCopied(install, old(install), children, prefix, top, allowed);
    }

    method CopyChild(c: Child, prefix: Rel, torn: string, ghost allowed: set<Rel>) returns (r: Result)
      requires !c.node.Link? && forall w :: w in ChildWrites(c, prefix) ==> w.path in allowed
      modifies this`install, this`faults
      ensures SameOutside(install, old(install), allowed)
      ensures r.Ok? ==> install == Apply(old(install), ChildWrites(c, prefix))
      ensures Faults(faults) <= Faults(old(faults)) && (r.Ok? || Faults(faults) < Faults(old(faults)))
      decreases c
    {
      if c.node.Dir? {
        r := CopyDirectory(c.node.children, prefix + [c.name], false, torn, allowed);
      } else {
        assert ChildWrites(c, prefix)[0] in ChildWrites(c, prefix) && ChildWrites(c, prefix)[..0] == [];
        r := WriteInstall(prefix + [c.name], c.node.text, torn);
      }
    }

    /** finishRestore: declare the transaction restored and publish the report. */
    method FinishRestore(pending: Journal) returns (r: Result)
      requires Consistent(Abs()) && Bound(Abs()) && journal == Some(pending) && Recovered(Abs()) == install
      modifies this`anchor, this`journal, this`faults
      ensures Consistent(Abs()) && Recovered(Abs()) == install
      ensures r.Ok? ==> Bound(Abs()) && journal == Some(pending.(status := Restored))
      ensures anchor == old(anchor) || anchor == Some(Anchor(pending.(status := Restored), Some(pending)))
      ensures Faults(faults) <= Faults(old(faults)) && (r.Ok? || Faults(faults) < Faults(old(faults)))
    {
      r := Persist(pending.(status := Restored), Some(pending));
      if r.Ok? {
        r := Tick();
      }
    }

    /** Put one entry back: an overwritten file from the backup, an added one away. */
    method PutEntryBack(e: Entry, torn: string) returns (r: Result)
      requires e.before.Some? ==> e.path in backup && backup[e.path] == e.before.value
      modifies this`install, this`faults
      ensures SameOutside(install, old(install), {e.path}) && (r.Ok? ==> AsBefore(install, e))
      ensures Faults(faults) <= Faults(old(faults)) && (r.Ok? || Faults(faults) < Faults(old(faults)))
    {
      if e.before.Some? {
        r := WriteInstall(e.path, backup[e.path], torn);
      } else {
        r := Tick();
        if r.Ok? {
          install := install - {e.path};
        }
      }
    }

    /** Put every entry back, last first. */
    method PutBack(pending: Journal, torn: string) returns (r: Result)
      requires Consistent(Abs()) && Bound(Abs()) && journal == Some(pending) && BackedUp(backup, pending.entries)
      requires pending.status.Active? || pending.status.Applied? || pending.status.Verified?
      modifies this`install, this`faults
      ensures Consistent(Abs()) && Undone(Abs()) == old(Undone(Abs()))
      ensures r.Ok? ==> Undone(Abs()) == install
      ensures Faults(faults) <= Faults(old(faults)) && (r.Ok? || Faults(faults) < Faults(old(faults)))
    {
      hide SameOutside, Rewound, Faults, RestoredFrom;
      r := Ok;
      var entries := pending.entries;
      NoneRestored(install, entries);
      for i := |entries| downto 0
        invariant r.Ok? && Faults(faults) <= Faults(old(faults))
        invariant SameOutside(install, old(install), PathsOf(entries)) && RestoredFrom(install, entries, i)
      {
        ghost var before := install;
        assert entries[i] in entries;
        r := PutEntryBack(entries[i], torn);
        OneMoreBack(install, before, old(install), entries, i, r.Ok?);
        RewoundIgnores(install, old(install), entries);
        if !r.Ok? {
          return;
        }
      }
      AllRestored(install, entries);
      RewoundIgnores(install, old(install), entries);
    }

    /** Every backup the restore will need is there and has its digest, checked before anything is put back. */
    method CheckBackups(entries: seq<Entry>) returns (r: Result)
      modifies this`faults
      ensures r.Ok? ==> BackedUp(backup, entries)
      ensures Faults(faults) <= Faults(old(faults)) && (BackedUp(backup, entries) ==> r.Ok? || Faults(faults) < Faults(old(faults)))
    {
      r := Tick();
      if !r.Ok? {
        return;
      }
      for i := 0 to |entries|
        invariant r.Ok?
        invariant forall k :: 0 <= k < i && entries[k].before.Some? ==>
          entries[k].path in backup && backup[entries[k].path] == entries[k].before.value
        invariant Faults(faults) <= Faults(old(faults))
      {
        var e := entries[i];
        if e.before.Some? && (e.path !in backup || backup[e.path] != e.before.value) {
          assert e in entries;
          return Threw;
        }
      }
    }

    /**
     restore: nothing to do if restored, nothing to undo while backing up. It makes the install what the transaction
     overwrote, of a verified one too as long as its backups are all there; and it is refused, with nothing put back,
     when one of them is not.
     */
    method Restore(targetVersion: string, torn: string) returns (r: Result)
      requires Consistent(Abs())
      modifies this`install, this`anchor, this`journal, this`faults
      ensures Consistent(Abs()) && Undone(Abs()) == old(Undone(Abs()))
      ensures old(anchor).Some? && !old(anchor).value.journal.status.Verified? ==> Recovered(Abs()) == old(Recovered(Abs()))
      ensures r.Ok? ==> Bound(Abs()) && journal.value.status.Restored? && install == old(Undone(Abs()))
      ensures r.Ok? ==> old(anchor).Some? && journal.value.previousVersion == old(anchor).value.journal.previousVersion
      ensures Faults(faults) <= Faults(old(faults))
      ensures old(anchor).Some? && old(anchor).value.journal.targetVersion == targetVersion
              && (old(anchor).value.journal.status.Verified? ==> BackedUp(backup, old(anchor).value.journal.entries)) ==>
                r.Ok? || Faults(faults) < Faults(old(faults))
      ensures old(anchor).Some? && old(anchor).value.journal.status.Verified? && !BackedUp(backup, old(anchor).value.journal.entries) ==>
                !r.Ok? && install == old(install)
      ensures old(anchor).None? || !old(anchor).value.journal.status.Verified? ==> anchor.None? || !anchor.value.journal.status.Verified?
    {
      hide Rewound, BackedUp, Faults, DistinctPaths;
      var pending;
      r, pending := Require(targetVersion);
      if !r.Ok? {
        return;
      }
      if pending.value.status.Restored? {
        r := Tick();
        return;
      }
      if pending.value.status.BackingUp? {
        r := FinishRestore(pending.value);
        return;
      }
      r := CheckBackups(pending.value.entries);
      if !r.Ok? {
        return;
      }
      r := PutBack(pending.value, torn);
      if !r.Ok? {
        return;
      }
      r := FinishRestore(pending.value);
    }

    /** clear: drop the backup and the journal, the anchor last. */
    method Clear(status: Status) returns (r: Result)
      requires Consistent(Abs()) && Bound(Abs()) && (status.Restored? || status.Verified?)
      modifies this`backup, this`anchor, this`journal, this`faults
      ensures Consistent(Abs()) && Recovered(Abs()) == old(Recovered(Abs()))
      ensures r.Ok? && old(journal).value.status == status ==> anchor.None? && journal.None?
      ensures Faults(faults) <= Faults(old(faults)) && (r.Ok? || Faults(faults) < Faults(old(faults)))
    {
      var pending;
      r, pending := Read();
      if !r.Ok? || pending.value.status != status {
        return;
      }
      r := Tick();
      if !r.Ok? {
        return;
      }
      backup := map[];
      r := Tick();
      if !r.Ok? {
        return;
      }
      journal := None;
      r := Tick();
      if !r.Ok? {
        return;
      }
      anchor := None;
    }

    /** The receipt a finished rollback leaves: the previous commit, if it was one. */
    function ReceiptOf(previousVersion: string): Option<string> {
      if |previousVersion| == 40 && forall i :: 0 <= i < 40 ==> previousVersion[i] in "0123456789abcdef" then Some(previousVersion) else None
    }

    lemma ReceiptIsACommit(v: string)
      ensures ReceiptOf(v) ==
              if |v| == 40 && (forall i :: 0 <= i < 40 ==> '0' <= v[i] <= '9' || 'a' <= v[i] <= 'f') then Some(v) else None
    {
      forall c: char ensures c in "0123456789abcdef" <==> '0' <= c <= '9' || 'a' <= c <= 'f' {
        HexChars(c);
      }
    }

    lemma HexChars(c: char)
      ensures c in "0123456789abcdef" <==> '0' <= c <= '9' || 'a' <= c <= 'f'
    {
      var hex := "0123456789abcdef";
      if '0' <= c <= '9' { assert hex[c as int - '0' as int] == c; }
      if 'a' <= c <= 'f' { assert hex[10 + c as int - 'a' as int] == c; }
    }

    /** recoverPendingUpdate: finish whatever transaction is open. */
    method RecoverPendingUpdate(torn: string) returns (r: Result)
      requires Consistent(Abs())
      modifies this
      ensures Consistent(Abs()) && Recovered(Abs()) == old(Recovered(Abs()))
      ensures r.Ok? ==> anchor.None? && journal.None? && install == old(Recovered(Abs()))
      ensures r.Ok? && old(anchor).Some? && !old(anchor).value.journal.status.Verified? ==>
                receipt == ReceiptOf(old(anchor).value.journal.previousVersion)
      ensures r.Ok? && old(anchor).Some? && !old(anchor).value.journal.status.Verified? ==>
                var v := old(anchor).value.journal.previousVersion;
                receipt == if |v| == 40 && (forall i :: 0 <= i < 40 ==> '0' <= v[i] <= '9' || 'a' <= v[i] <= 'f') then Some(v) else None
      ensures old(anchor).None? ==> install == old(install)
      ensures Faults(faults) <= Faults(old(faults)) && (r.Ok? || Faults(faults) < Faults(old(faults)))
    {
      var pending;
      r, pending := Read();
      if !r.Ok? || pending.None? {
        return;
      }
      if pending.value.status.Verified? {
        r := Clear(Verified);
        return;
      }
      if !pending.value.status.Restored? {
        r := Restore(pending.value.targetVersion, torn);
        if !r.Ok? {
          return;
        }
      }
      r := Tick();
      if !r.Ok? {
        return;
      }
      ReceiptIsACommit(pending.value.previousVersion);
      receipt := ReceiptOf(pending.value.previousVersion);
      r := Tick();
      if !r.Ok? {
        return;
      }
      r := Clear(Restored);
    }

    /** Copy the extract over the install and declare the transaction applied. */
    method Mutate(children: seq<Child>, targetVersion: string, torn: string) returns (r: Result)
      requires Consistent(Abs()) && Bound(Abs()) && journal.value.status.Active? && journal.value.targetVersion == targetVersion
      requires forall w :: w in Writes(children, [], true) ==> w.path in PathsOf(journal.value.entries)
      modifies this`install, this`anchor, this`journal, this`faults
      ensures Consistent(Abs()) && Recovered(Abs()) == old(Recovered(Abs()))
      ensures r.Ok? ==> install == Apply(old(install), Writes(children, [], true)) && Bound(Abs()) && journal.value.status.Applied?
      ensures anchor.Some? && anchor.value.journal.targetVersion == targetVersion
      ensures anchor.value.journal.status.Active? || anchor.value.journal.status.Applied?
      ensures Faults(faults) <= Faults(old(faults)) && (r.Ok? || Faults(faults) < Faults(old(faults)))
    {
      ghost var entries := journal.value.entries;
      r := CopyDirectory(children, [], true, torn, PathsOf(entries));
      RewoundIgnores(install, old(install), entries);
      if !r.Ok? {
        return;
      }
      var pending;
      r, pending := Require(targetVersion);
      if !r.Ok? {
        return;
      }
      r := Persist(pending.value.(status := Applied), Some(pending.value));
    }

    /**
     applyUpdate. Whatever fails, the disk still stands for the install as it was; a failure met by an update
     that began with nothing pending has already put it back, unless the putting back failed too.
     */
    method ApplyUpdate(children: seq<Child>, currentVersion: string, expectedCommit: string, validates: bool, torn: string)
      returns (r: Result)
      requires Consistent(Abs())
      modifies this
      ensures Consistent(Abs()) && Recovered(Abs()) == old(Recovered(Abs()))
      ensures r.Ok? ==> install == Apply(old(Recovered(Abs())), Writes(children, [], true))
      ensures r.Ok? ==> Updated(children, old(Recovered(Abs())), install)
      ensures r.Ok? ==> Bound(Abs()) && journal.value.status.Applied? && journal.value.targetVersion == expectedCommit != ""
      ensures r.Threw? && old(anchor).None? && Faults(old(faults)) <= Faults(faults) + 1 ==> install == old(install)
      ensures expectedCommit == "" || !validates ==> !r.Ok?
      ensures Faults(faults) <= Faults(old(faults))
    {
      hide Updated;
      CopyUpdates(children, Recovered(Abs()));
      if expectedCommit == "" {
        return Threw;
      }
      r := RecoverPendingUpdate(torn);
      if !r.Ok? {
        return;
      }
      r := Tick();
      if !r.Ok? {
        return;
      }
      if !validates {
        return Threw;
      }
      var paths := UpdatePaths(children, []);
      ListedIsWritten(children, []);
      r := Begin(currentVersion, expectedCommit, paths, torn);
      if !r.Ok? {
        return;
      }
      AllListed(children, journal.value.entries, paths);
      r := Mutate(children, expectedCommit, torn);
      if r.Ok? {
        r := Report(expectedCommit);
      }
      if r.Threw? {
        r := Restore(expectedCommit, torn);
        if r.Ok? {
          r := Threw;
        }
      }
    }

    /** Record the applied update in the history. */
    method Report(targetVersion: string) returns (r: Result)
      requires Consistent(Abs()) && Bound(Abs()) && journal.value.status.Applied?
      modifies this`faults
      ensures Faults(faults) <= Faults(old(faults)) && (r.Ok? || Faults(faults) < Faults(old(faults)))
    {
      r := Tick();
      if r.Ok? {
        r := Tick();
      }
    }

    lemma AllListed(children: seq<Child>, entries: seq<Entry>, paths: seq<Rel>)
      requires paths == Targets(Writes(children, [], true)) && PathsOf(entries) == (set p | p in paths)
      ensures forall w :: w in Writes(children, [], true) ==> w.path in PathsOf(entries)
    {
      var ws := Writes(children, [], true);
      forall w | w in ws ensures w.path in PathsOf(entries) {
        var i :| 0 <= i < |ws| && ws[i] == w;
        assert paths[i] in paths;
      }
    }

    /** confirmUpdate is the commit point: from here the install stands for itself. */
    method ConfirmUpdate(commit: string) returns (r: Result)
      requires Consistent(Abs())
      modifies this`anchor, this`journal, this`faults
      ensures Consistent(Abs())
      ensures r.Ok? ==> Recovered(Abs()) == install && anchor.Some? && anchor.value.journal.status.Verified?
      ensures Recovered(Abs()) == old(Recovered(Abs())) || Recovered(Abs()) == install
    {
      var pending;
      r, pending := Require(commit);
      if !r.Ok? {
        return;
      }
      r := Persist(pending.value.(status := Verified), Some(pending.value));
    }

    /**
     An update interrupted anywhere before it is confirmed, then any number of recoveries interrupted anywhere,
     then one that runs through: the install's files are what they were before the update.
     */
    method InterruptedUpdate(children: seq<Child>, currentVersion: string, commit: string, validates: bool, torn: string,
                             recoveries: seq<seq<Fault>>)
      requires Consistent(Abs())
      modifies this
      ensures install == old(Recovered(Abs())) && anchor.None? && journal.None?
    {
      var r := ApplyUpdate(children, currentVersion, commit, validates, torn);
      for i := 0 to |recoveries|
        invariant Consistent(Abs()) && Recovered(Abs()) == old(Recovered(Abs()))
      {
        faults := recoveries[i];
        r := RecoverPendingUpdate(torn);
      }
      faults := [];
      r := RecoverPendingUpdate(torn);
    }
  }
}
