/**
 Decrypting undoes encrypting: after any run whose in-place saves all succeed, a reboot under
 the same key finds the very table and quarantine the process held.
 */
module VaultReboot {
  import opened Wrappers
  import opened Vault
  import opened VaultTheorems

  /** An entry with no origin has a URL none can be derived from. */
  predicate OriginDerived(e: Entry, derive: Derive) {
    e.meta.details.origin.None? ==> DeriveOrigin(e.meta.details.url, derive).None?
  }

  ghost predicate NamesDistinct(entries: seq<FileEntry>) {
    forall i, j :: 0 <= i < j < |entries| ==> entries[i].name != entries[j].name
  }

  ghost predicate AllOpen(entries: seq<FileEntry>, key: Key) {
    forall f :: f in entries ==> Decrypt(f.encrypted, key).Some?
  }

  ghost predicate AllClosed(entries: seq<FileEntry>, key: Key) {
    forall f :: f in entries ==> Decrypt(f.encrypted, key).None?
  }

  ghost predicate AllDerived(table: seq<Entry>, derive: Derive) {
    forall e :: e in table ==> OriginDerived(e, derive)
  }

  /** Quarantine holds what the key does not open, each name once, and none that is live. */
  ghost predicate Tidy(p: Process, derive: Derive) {
    && Distinct(p.mem.secrets) && AllDerived(p.mem.secrets, derive)
    && NamesDistinct(p.mem.quarantined) && AllClosed(p.mem.quarantined, p.key)
    && (forall f :: f in p.mem.quarantined ==> f.name !in Names(p.mem.secrets))
  }

  // ---- the round trip ----

  lemma {:induction false} OpenedAppend(opens: seq<FileEntry>, closed: seq<FileEntry>, key: Key, derive: Derive)
    requires AllClosed(closed, key)
    ensures Opened(opens + closed, key, derive) == Opened(opens, key, derive)
    decreases |closed|
  {
    if closed == [] {
      assert opens + closed == opens;
    } else {
      var n := |closed| - 1;
      assert (opens + closed)[..|opens| + n] == opens + closed[..n];
      assert closed[n] in closed;
      OpenedAppend(opens, closed[..n], key, derive);
    }
  }

  lemma {:induction false} UnopenedNone(opens: seq<FileEntry>, key: Key)
    requires AllOpen(opens, key)
    ensures Unopened(opens, key) == []
  {
    if opens != [] {
      assert opens[|opens| - 1] in opens;
      UnopenedNone(opens[..|opens| - 1], key);
    }
  }

  lemma {:induction false} UnopenedAppend(opens: seq<FileEntry>, closed: seq<FileEntry>, key: Key)
    requires AllOpen(opens, key) && AllClosed(closed, key)
    ensures Unopened(opens + closed, key) == closed
    decreases |closed|
  {
    if closed == [] {
      assert opens + closed == opens;
      UnopenedNone(opens, key);
    } else {
      var n := |closed| - 1;
      assert (opens + closed)[..|opens| + n] == opens + closed[..n];
      assert closed[n] in closed && closed == closed[..n] + [closed[n]];
      UnopenedAppend(opens, closed[..n], key);
    }
  }

  lemma {:induction false} PutNew(table: seq<Entry>, e: Entry)
    requires e.name !in Names(table)
    ensures Put(table, e) == table + [e]
  {
    if table != [] {
      assert table[0] in table;
      PutNew(table[1..], e);
      assert table == [table[0]] + table[1..];
    }
  }

  lemma OpenSealed(e: Entry, key: Key, iv: nat, derive: Derive)
    requires OriginDerived(e, derive)
    ensures OpenEntry(SealEntry(e, key, iv), e.value, derive) == e && Decrypt(SealEntry(e, key, iv).encrypted, key) == Some(e.value)
  {
  }

  lemma {:induction false} OpenedSealed(table: seq<Entry>, key: Key, iv: nat, derive: Derive)
    requires Distinct(table) && AllDerived(table, derive)
    ensures Opened(SealAll(table, key, iv), key, derive) == table
  {
    hide OpenEntry, SealEntry, Put, OriginDerived, DeriveOrigin;
    if table != [] {
      var n := |table| - 1;
      var sealed := SealAll(table, key, iv);
      OpenedSealed(table[..n], key, iv, derive);
      assert sealed[..n] == SealAll(table[..n], key, iv);
      assert table[n] in table && table == table[..n] + [table[n]];
      OpenSealed(table[n], key, iv + n, derive);
      assert sealed[n] == SealEntry(table[n], key, iv + n);
      PutNew(table[..n], table[n]);
    }
  }

  lemma {:induction false} NotNamedAll(entries: seq<FileEntry>, names: set<string>)
    requires forall f :: f in entries ==> f.name !in names
    ensures NotNamed(entries, names) == entries
  {
    if entries != [] {
      NotNamedAll(entries[1..], names);
      assert entries[0] in entries && entries == [entries[0]] + entries[1..];
    }
  }

  /** decryptSecretsFile inverts encryptSecretsFile under the same key, on the live table and the quarantine alike. */
  lemma SaveThenLoad(p: Process, iv: nat, derive: Derive)
    requires Tidy(p, derive)
    ensures var mem := Load(Write(p.mem, p.key, iv).disk, p.key, derive);
            mem.secrets == p.mem.secrets && mem.quarantined == p.mem.quarantined && mem.frozenVersion.None?
  {
    hide SealAll, NotNamed, Opened, Unopened, Distinct, AllDerived;
    var sealed, q := SealAll(p.mem.secrets, p.key, iv), p.mem.quarantined;
    NotNamedAll(q, Names(p.mem.secrets));
    OpenedAppend(sealed, q, p.key, derive);
    OpenedSealed(p.mem.secrets, p.key, iv, derive);
    SealAllMembers(p.mem.secrets, p.key, iv);
    UnopenedAppend(sealed, q, p.key);
  }

  // ---- what every file written by this build, and every process it boots, looks like ----

  ghost predicate TidyFile(file: Option<File>) {
    file.Some? ==> Readable(file) && NamesDistinct(file.value.entries)
  }

  lemma {:induction false} UnopenedDistinct(entries: seq<FileEntry>, key: Key)
    requires NamesDistinct(entries)
    ensures NamesDistinct(Unopened(entries, key))
  {
    if entries != [] {
      var n := |entries| - 1;
      UnopenedDistinct(entries[..n], key);
      UnopenedMembers(entries[..n], key);
    }
  }

  lemma LoadIsTidy(file: Option<File>, key: Key, derive: Derive)
    requires TidyFile(file)
    ensures Tidy(Process(key, Load(file, key, derive)), derive) && Load(file, key, derive).frozenVersion.None?
  {
    hide Opened, Unopened, Distinct, NamesDistinct;
    NothingTidy(key, derive);
    if file.Some? {
      var entries := file.value.entries;
      OpenedDistinct(entries, key, derive);
      OpenedMembers(entries, key, derive);
      UnopenedDistinct(entries, key);
      UnopenedMembers(entries, key);
      NamesApart(entries, key, derive);
    }
  }

  lemma NothingTidy(key: Key, derive: Derive)
    ensures Tidy(Process(key, EMPTY), derive)
  {
  }

  lemma NamesApart(entries: seq<FileEntry>, key: Key, derive: Derive)
    requires NamesDistinct(entries)
    ensures forall f :: f in Unopened(entries, key) ==> f.name !in Names(Opened(entries, key, derive))
  {
    hide Opened, Unopened;
    OpenedMembers(entries, key, derive);
    UnopenedMembers(entries, key);
    forall f | f in Unopened(entries, key) ensures f.name !in Names(Opened(entries, key, derive)) {
      forall g | g in entries && g.name == f.name ensures g == f {
        SameNameSameEntry(entries, f, g);
      }
    }
  }

  lemma SameNameSameEntry(entries: seq<FileEntry>, f: FileEntry, g: FileEntry)
    requires NamesDistinct(entries) && f in entries && g in entries && f.name == g.name
    ensures f == g
  {
    var i :| 0 <= i < |entries| && entries[i] == f;
    var j :| 0 <= j < |entries| && entries[j] == g;
  }

  lemma WriteIsTidy(p: Process, iv: nat, derive: Derive)
    requires Tidy(p, derive)
    ensures TidyFile(Write(p.mem, p.key, iv).disk)
  {
    var sealed, q := SealAll(p.mem.secrets, p.key, iv), p.mem.quarantined;
    NotNamedAll(q, Names(p.mem.secrets));
    forall i, j | 0 <= i < j < |sealed + q| ensures (sealed + q)[i].name != (sealed + q)[j].name {
      if j >= |sealed| > i {
        assert p.mem.secrets[i] in p.mem.secrets && q[j - |sealed|] in q;
      }
    }
  }

  // ---- operations keep it ----

  lemma {:induction false} NotNamedDistinct(entries: seq<FileEntry>, names: set<string>)
    requires NamesDistinct(entries)
    ensures NamesDistinct(NotNamed(entries, names))
  {
    if entries != [] {
      NotNamedDistinct(entries[1..], names);
      NotNamedMembers(entries[1..], names);
    }
  }

  lemma ReplacementIsDerived(name: string, value: string, given: Details, prior: Option<Entry>, now: int, derive: Derive)
    ensures OriginDerived(Replacement(name, value, given, prior, now, derive), derive)
  {
  }

  lemma PutIsTidy(p: Process, e: Entry, derive: Derive)
    requires Tidy(p, derive) && OriginDerived(e, derive)
    ensures Tidy(Process(p.key, p.mem.(secrets := Put(p.mem.secrets, e), quarantined := NotNamed(p.mem.quarantined, {e.name}))), derive)
    ensures e.name in Names(p.mem.secrets) ==> Tidy(Process(p.key, p.mem.(secrets := Put(p.mem.secrets, e))), derive)
  {
    hide Put, NotNamed, Distinct, NamesDistinct, OriginDerived;
    PutDistinct(p.mem.secrets, e);
    PutMembers(p.mem.secrets, e);
    NotNamedDistinct(p.mem.quarantined, {e.name});
    NotNamedMembers(p.mem.quarantined, {e.name});
  }

  lemma WithoutIsTidy(p: Process, name: string, derive: Derive)
    requires Tidy(p, derive)
    ensures Tidy(Process(p.key, p.mem.(secrets := Without(p.mem.secrets, name), quarantined := NotNamed(p.mem.quarantined, {name}))), derive)
  {
    hide Without, NotNamed, Distinct, NamesDistinct, OriginDerived;
    WithoutDistinct(p.mem.secrets, name);
    NotNamedDistinct(p.mem.quarantined, {name});
    NotNamedMembers(p.mem.quarantined, {name});
  }

  lemma SeedIsTidy(p: Process, derive: Derive)
    requires Tidy(p, derive)
    ensures Tidy(Process(p.key, p.mem.(seedPending := false)), derive)
  {
    hide Distinct, NamesDistinct;
  }

  lemma ApprovalsAreTidy(p: Process, name: string, approvals: seq<Approval>, now: int, derive: Derive)
    requires Tidy(p, derive) && Find(p.mem.secrets, name).Some?
    ensures Tidy(Process(p.key, p.mem.(secrets := Put(p.mem.secrets, WithApprovals(Find(p.mem.secrets, name).value, approvals, now)))), derive)
  {
    hide Find, Put, Distinct, NamesDistinct;
    FindIsFirst(p.mem.secrets, name);
    var e := Find(p.mem.secrets, name).value;
    assert e.name in Names(p.mem.secrets);
    PutIsTidy(p, WithApprovals(e, approvals, now), derive);
  }

  lemma OperationIsTidy(p: Process, disk: Option<File>, a: Action, derive: Derive)
    requires Tidy(p, derive) && IsOperation(a)
    ensures Tidy(Process(p.key, Perform(Vault(p.mem, disk), p.key, a, derive).vault.mem), derive)
  {
    hide EncryptFile, NotNamed, Merge, Put, Find, Without, Kept, Tidy, WithApprovals, DeriveOrigin;
    match a
    case SetSecret(n, value, given, now, iv, ok) =>
      ReplacementIsDerived(n, value, given, Find(p.mem.secrets, n), now, derive);
      PutIsTidy(p, Replacement(n, value, given, Find(p.mem.secrets, n), now, derive), derive);
    case DeleteSecret(n, _, _) => WithoutIsTidy(p, n, derive);
    case ApproveDestination(n, d, now, _, _) =>
      if Find(p.mem.secrets, n).Some? && d.Some? {
        ApprovalsAreTidy(p, n, Find(p.mem.secrets, n).value.meta.approvals.GetOr([]) + [Approval(d.value, now)], now, derive);
      }
    case RevokeDestination(n, d, now, _, _) =>
      if Find(p.mem.secrets, n).Some? && Find(p.mem.secrets, n).value.meta.approvals.Some? {
        ApprovalsAreTidy(p, n, Kept(Find(p.mem.secrets, n).value.meta.approvals.value, d), now, derive);
      }
    case SeedDone(_, _) => SeedIsTidy(p, derive);
  }

  // ---- reboots ----

  /** Does this action, performed here, change memory although its write failed? */
  predicate FailsInPlace(s: State, a: Action, derive: Derive) {
    && IsOperation(a) && !a.SetSecret? && !a.DeleteSecret? && s.process.Some?
    && Perform(Vault(s.process.value.mem, s.disk), s.process.value.key, a, derive).outcome.Failed?
  }

  predicate NoneFailsInPlace(s: State, run: seq<Action>, derive: Derive)
    decreases |run|
  {
    run == [] || (!FailsInPlace(s, run[0], derive) && NoneFailsInPlace(Step(s, run[0], derive), run[1..], derive))
  }

  /** A running process holds what a reboot under its key would load. */
  ghost predicate RebootChangesNothing(s: State, derive: Derive) {
    s.process.Some? ==>
      var p := s.process.value;
      var mem := Load(s.disk, p.key, derive);
      mem.secrets == p.mem.secrets && mem.quarantined == p.mem.quarantined && mem.frozenVersion == p.mem.frozenVersion
  }

  ghost predicate Good(s: State, derive: Derive) {
    && TidyFile(s.disk) && RebootChangesNothing(s, derive)
    && (s.process.Some? ==> Tidy(s.process.value, derive) && s.process.value.mem.frozenVersion.None?)
  }

  /** With the file as it was, an operation that did not fail in place left the table as it was. */
  lemma LeftAlone(v: Vault, key: Key, a: Action, derive: Derive)
    requires IsOperation(a) && v.mem.frozenVersion.None?
    requires Perform(v, key, a, derive).outcome.Failed? ==> a.SetSecret? || a.DeleteSecret?
    ensures var w := Perform(v, key, a, derive).vault; w == v || w == Write(w.mem, key, a.iv)
  {
    hide EncryptFile, Replacement, Put, Find, Without, NotNamed, Kept, WithApprovals;
  }

  lemma StepIsGood(s: State, a: Action, derive: Derive)
    requires Good(s, derive) && !FailsInPlace(s, a, derive)
    ensures Good(Step(s, a, derive), derive)
  {
    hide Perform, Load, Tidy, TidyFile, EncryptFile;
    if a.Boot? {
      LoadIsTidy(s.disk, a.key, derive);
    } else if IsOperation(a) && s.process.Some? {
      var p := s.process.value;
      var v, w := Vault(p.mem, s.disk), Perform(Vault(p.mem, s.disk), p.key, a, derive).vault;
      LeftAlone(v, p.key, a, derive);
      OperationIsTidy(p, s.disk, a, derive);
      WritesOrLeaves(v, p.key, a, derive);
      WriteIsTidy(Process(p.key, w.mem), a.iv, derive);
      SaveThenLoad(Process(p.key, w.mem), a.iv, derive);
    }
  }

  /** From an empty directory, or any file this build wrote, memory and disk stay in step through every run. */
  lemma {:induction false} MemoryMatchesDisk(s: State, run: seq<Action>, derive: Derive)
    requires Good(s, derive) && NoneFailsInPlace(s, run, derive)
    ensures Good(RunAll(s, run, derive), derive)
    decreases |run|
  {
    hide Good, FailsInPlace, Step;
    if run != [] {
      StepIsGood(s, run[0], derive);
      MemoryMatchesDisk(Step(s, run[0], derive), run[1..], derive);
    }
  }

  lemma EmptyDirectoryIsGood(derive: Derive)
    ensures Good(State(None, None), derive)
  {
  }
}
