/**
 What the vault keeps over any sequence of boots under any keys, crashes, and operations
 whose writes succeed or fail.
 */
module VaultTheorems {
  import opened Wrappers
  import opened Vault

  // ---- runs ----

  datatype Process = Process(key: Key, mem: Memory)

  datatype State = State(disk: Option<File>, process: Option<Process>)

  /** `ok` is whether an atomic write, if one is made, succeeds; `iv` the nonces it draws. */
  datatype Action =
    | Boot(key: Key)
    | Crash
    | SetSecret(name: string, value: string, given: Details, now: int, iv: nat, ok: bool)
    | DeleteSecret(name: string, iv: nat, ok: bool)
    | ApproveDestination(name: string, destination: Option<string>, now: int, iv: nat, ok: bool)
    | RevokeDestination(name: string, destination: Option<string>, now: int, iv: nat, ok: bool)
    | SeedDone(iv: nat, ok: bool)

  predicate IsOperation(a: Action) { !a.Boot? && !a.Crash? }

  function Perform(v: Vault, key: Key, a: Action, derive: Derive): Effect
    requires IsOperation(a)
  {
    match a
    case SetSecret(name, value, given, now, iv, ok) => Set(v, name, value, given, now, key, derive, iv, ok)
    case DeleteSecret(name, iv, ok) => Delete(v, name, key, iv, ok)
    case ApproveDestination(name, destination, now, iv, ok) => Approve(v, name, destination, now, key, iv, ok)
    case RevokeDestination(name, destination, now, iv, ok) => RevokeApproval(v, name, destination, now, key, iv, ok)
    case SeedDone(iv, ok) => MarkSeedDone(v, key, iv, ok)
  }

  /** Operations need a running process; a boot replaces whatever ran. */
  function Step(s: State, a: Action, derive: Derive): State {
    match a
    case Boot(key) => State(s.disk, Some(Process(key, Load(s.disk, key, derive))))
    case Crash => State(s.disk, None)
    case _ =>
      if s.process.None? then s
      else
        var p := s.process.value;
        var v := Perform(Vault(p.mem, s.disk), p.key, a, derive).vault;
        State(v.disk, Some(Process(p.key, v.mem)))
  }

  function RunAll(s: State, run: seq<Action>, derive: Derive): State
    decreases |run|
  {
    if run == [] then s else RunAll(Step(s, run[0], derive), run[1..], derive)
  }

  // ---- tables ----

  ghost predicate Readable(file: Option<File>) {
    file.Some? && file.value.File? && file.value.version.Some? && file.value.version.value <= SECRETS_FILE_VERSION
  }

  lemma {:induction false} FindIsFirst(table: seq<Entry>, name: string)
    ensures Find(table, name).None? <==> forall e :: e in table ==> e.name != name
    ensures Find(table, name).Some? ==> Find(table, name).value in table && Find(table, name).value.name == name
  {
    if table != [] { FindIsFirst(table[1..], name); }
  }

  /** The table is a map: no two entries share a name. */
  ghost predicate Distinct(table: seq<Entry>) {
    forall i, j :: 0 <= i < j < |table| ==> table[i].name != table[j].name
  }

  lemma {:induction false} PutDistinct(table: seq<Entry>, e: Entry)
    requires Distinct(table)
    ensures Distinct(Put(table, e)) && (forall x :: x in Put(table, e) && x.name == e.name ==> x == e)
  {
    if table != [] {
      PutDistinct(table[1..], e);
      PutMembers(table[1..], e);
    }
  }

  lemma {:induction false} WithoutDistinct(table: seq<Entry>, name: string)
    requires Distinct(table)
    ensures Distinct(Without(table, name)) && (forall x :: x in Without(table, name) ==> x in table && x.name != name)
  {
    if table != [] {
      WithoutDistinct(table[1..], name);
    }
  }

  lemma {:induction false} OpenedDistinct(entries: seq<FileEntry>, key: Key, derive: Derive)
    ensures Distinct(Opened(entries, key, derive))
  {
    if entries != [] {
      var n := |entries| - 1;
      OpenedDistinct(entries[..n], key, derive);
      if Decrypt(entries[n].encrypted, key).Some? {
        PutDistinct(Opened(entries[..n], key, derive), OpenEntry(entries[n], Decrypt(entries[n].encrypted, key).value, derive));
      }
    }
  }

  ghost predicate TableIsMap(s: State) {
    s.process.Some? ==> Distinct(s.process.value.mem.secrets)
  }

  lemma OperationKeepsMap(v: Vault, key: Key, a: Action, derive: Derive)
    requires IsOperation(a) && Distinct(v.mem.secrets)
    ensures Distinct(Perform(v, key, a, derive).vault.mem.secrets)
  {
    hide EncryptFile, NotNamed, Distinct, Put, Without, Merge, Kept;
    match a
    case SetSecret(n, value, given, now, iv, ok) =>
      PutDistinct(v.mem.secrets, Replacement(n, value, given, Find(v.mem.secrets, n), now, derive));
    case DeleteSecret(n, _, _) => WithoutDistinct(v.mem.secrets, n);
    case ApproveDestination(n, d, now, _, _) =>
      if Find(v.mem.secrets, n).Some? {
        var e := Find(v.mem.secrets, n).value;
        PutDistinct(v.mem.secrets, WithApprovals(e, e.meta.approvals.GetOr([]) + [Approval(d.GetOr(""), now)], now));
      }
    case RevokeDestination(n, d, now, _, _) =>
      if Find(v.mem.secrets, n).Some? && Find(v.mem.secrets, n).value.meta.approvals.Some? {
        var e := Find(v.mem.secrets, n).value;
        PutDistinct(v.mem.secrets, WithApprovals(e, Kept(e.meta.approvals.value, d), now));
      }
    case SeedDone(_, _) =>
  }

  lemma StepKeepsMap(s: State, a: Action, derive: Derive)
    requires TableIsMap(s)
    ensures TableIsMap(Step(s, a, derive))
  {
    hide Distinct, Opened, Unopened, Perform;
    if a.Boot? {
      if Readable(s.disk) { OpenedDistinct(s.disk.value.entries, a.key, derive); }
      NothingDistinct();
    } else if IsOperation(a) && s.process.Some? {
      OperationKeepsMap(Vault(s.process.value.mem, s.disk), s.process.value.key, a, derive);
    }
  }

  lemma NothingDistinct()
    ensures Distinct([])
  {
  }

  lemma {:induction false} PutMembers(table: seq<Entry>, e: Entry)
    ensures e in Put(table, e)
    ensures forall x :: x in Put(table, e) ==> x == e || x in table
    ensures forall x :: x in table && x.name != e.name ==> x in Put(table, e)
  {
    if table != [] { PutMembers(table[1..], e); }
  }

  lemma {:induction false} FindPut(table: seq<Entry>, e: Entry, name: string)
    ensures Find(Put(table, e), name) == if name == e.name then Some(e) else Find(table, name)
  {
    if table != [] && table[0].name != e.name {
      FindPut(table[1..], e, name);
      assert Put(table, e)[1..] == Put(table[1..], e);
    } else if table != [] {
      assert Put(table, e)[1..] == table[1..];
    }
  }

  lemma {:induction false} FindWithout(table: seq<Entry>, gone: string, name: string)
    requires name != gone
    ensures Find(Without(table, gone), name) == Find(table, name)
  {
    if table != [] && table[0].name != gone {
      FindWithout(table[1..], gone, name);
      assert Without(table, gone)[1..] == Without(table[1..], gone);
    }
  }

  lemma {:induction false} WithoutMembers(table: seq<Entry>, name: string)
    ensures forall x :: x in Without(table, name) ==> x in table
    ensures forall x :: x in table && x.name != name ==> x in Without(table, name)
  {
    if table != [] { WithoutMembers(table[1..], name); }
  }

  lemma {:induction false} NotNamedMembers(entries: seq<FileEntry>, names: set<string>)
    ensures forall f :: f in NotNamed(entries, names) <==> f in entries && f.name !in names
  {
    if entries != [] { NotNamedMembers(entries[1..], names); }
  }

  lemma {:induction false} UnopenedMembers(entries: seq<FileEntry>, key: Key)
    ensures forall f :: f in Unopened(entries, key) <==> f in entries && Decrypt(f.encrypted, key).None?
  {
    if entries != [] {
      UnopenedMembers(entries[..|entries| - 1], key);
      assert entries == entries[..|entries| - 1] + [entries[|entries| - 1]];
    }
  }

  /** A live entry came from a file entry of its name that opens to its value. */
  lemma {:induction false} OpenedMembers(entries: seq<FileEntry>, key: Key, derive: Derive)
    ensures forall e :: e in Opened(entries, key, derive) ==>
              exists f :: f in entries && Decrypt(f.encrypted, key) == Some(e.value) && e == OpenEntry(f, e.value, derive)
  {
    if entries != [] {
      var last, before := entries[|entries| - 1], Opened(entries[..|entries| - 1], key, derive);
      OpenedMembers(entries[..|entries| - 1], key, derive);
      assert last in entries;
      if Decrypt(last.encrypted, key).Some? {
        PutMembers(before, OpenEntry(last, Decrypt(last.encrypted, key).value, derive));
      }
    }
  }

  /** A name with an entry that opens is live. */
  lemma {:induction false} OpenableIsLive(entries: seq<FileEntry>, key: Key, derive: Derive, f: FileEntry)
    requires f in entries && Decrypt(f.encrypted, key).Some?
    ensures f.name in Names(Opened(entries, key, derive))
  {
    var last, before := entries[|entries| - 1], Opened(entries[..|entries| - 1], key, derive);
    if last != f { OpenableIsLive(entries[..|entries| - 1], key, derive, f); }
    if Decrypt(last.encrypted, key).Some? {
      var e := OpenEntry(last, Decrypt(last.encrypted, key).value, derive);
      PutMembers(before, e);
      if f.name != last.name {
        var x :| x in before && x.name == f.name;
        assert x in Put(before, e);
      }
    }
  }

  /** A sealed entry opens to a live value of its name. */
  lemma SealAllMembers(table: seq<Entry>, key: Key, iv: nat)
    ensures forall f :: f in SealAll(table, key, iv) ==>
              exists e :: e in table && f.name == e.name && Decrypt(f.encrypted, key) == Some(e.value)
  {
    var sealed := SealAll(table, key, iv);
    forall f | f in sealed
      ensures exists e :: e in table && f.name == e.name && Decrypt(f.encrypted, key) == Some(e.value)
    {
      var i :| 0 <= i < |sealed| && sealed[i] == f;
      assert table[i] in table;
    }
  }

  lemma SealedEntry(table: seq<Entry>, key: Key, iv: nat, name: string) returns (f: FileEntry)
    requires name in Names(table)
    ensures f in SealAll(table, key, iv) && f.name == name
  {
    var e :| e in table && e.name == name;
    var i :| 0 <= i < |table| && table[i] == e;
    f := SealAll(table, key, iv)[i];
  }

  // ---- a stored value survives every key change ----

  /** Some entry of the name is there and every one of them opens to the value under the key. */
  ghost predicate EntriesHold(entries: seq<FileEntry>, name: string, key: Key, value: string) {
    && (exists f :: f in entries && f.name == name)
    && (forall f :: f in entries && f.name == name ==> Decrypt(f.encrypted, key) == Some(value))
  }

  ghost predicate TableHolds(table: seq<Entry>, name: string, value: string) {
    && (exists e :: e in table && e.name == name)
    && (forall e :: e in table && e.name == name ==> e.value == value)
  }

  ghost predicate MemoryHolds(p: Process, name: string, key: Key, value: string) {
    && p.mem.frozenVersion.None?
    && if p.key == key then TableHolds(p.mem.secrets, name, value) && name !in (set f | f in p.mem.quarantined :: f.name)
       else name !in Names(p.mem.secrets) && EntriesHold(p.mem.quarantined, name, key, value)
  }

  /** The value is safe: on disk under its key, and in any running process live or quarantined. */
  ghost predicate Holds(s: State, name: string, key: Key, value: string) {
    && Readable(s.disk) && EntriesHold(s.disk.value.entries, name, key, value)
    && (s.process.Some? ==> MemoryHolds(s.process.value, name, key, value))
  }

  lemma LoadHolds(entries: seq<FileEntry>, version: int, boot: Key, derive: Derive, name: string, key: Key, value: string)
    requires EntriesHold(entries, name, key, value) && version <= SECRETS_FILE_VERSION
    ensures MemoryHolds(Process(boot, Load(Some(File(Some(version), entries)), boot, derive)), name, key, value)
  {
    hide Opened, Unopened;
    OpenedMembers(entries, boot, derive);
    UnopenedMembers(entries, boot);
    var f :| f in entries && f.name == name;
    if boot == key {
      OpenableIsLive(entries, boot, derive, f);
    } else {
      assert f in Unopened(entries, boot);
    }
  }

  lemma WriteHolds(mem: Memory, writer: Key, iv: nat, name: string, key: Key, value: string)
    requires MemoryHolds(Process(writer, mem), name, key, value)
    ensures Readable(Write(mem, writer, iv).disk) && EntriesHold(Write(mem, writer, iv).disk.value.entries, name, key, value)
  {
    hide SealAll, NotNamed, EntriesHold;
    var sealed, carried := SealAll(mem.secrets, writer, iv), NotNamed(mem.quarantined, Names(mem.secrets));
    if writer == key { LiveHolds(mem, key, iv, name, value); } else { CarriedHolds(mem, writer, iv, name, key, value); }
  }

  lemma LiveHolds(mem: Memory, key: Key, iv: nat, name: string, value: string)
    requires TableHolds(mem.secrets, name, value) && name !in (set f | f in mem.quarantined :: f.name)
    ensures EntriesHold(SealAll(mem.secrets, key, iv) + NotNamed(mem.quarantined, Names(mem.secrets)), name, key, value)
  {
    hide SealAll, NotNamed, Decrypt;
    var sealed, carried := SealAll(mem.secrets, key, iv), NotNamed(mem.quarantined, Names(mem.secrets));
    SealAllMembers(mem.secrets, key, iv);
    NotNamedMembers(mem.quarantined, Names(mem.secrets));
    assert name in Names(mem.secrets);
    var f := SealedEntry(mem.secrets, key, iv, name);
    assert f in sealed + carried;
    forall g: FileEntry | g in sealed + carried && g.name == name ensures Decrypt(g.encrypted, key) == Some(value) {
      if g in sealed {
        var d :| d in mem.secrets && g.name == d.name && Decrypt(g.encrypted, key) == Some(d.value);
      }
    }
  }

  lemma CarriedHolds(mem: Memory, writer: Key, iv: nat, name: string, key: Key, value: string)
    requires name !in Names(mem.secrets) && EntriesHold(mem.quarantined, name, key, value)
    ensures EntriesHold(SealAll(mem.secrets, writer, iv) + NotNamed(mem.quarantined, Names(mem.secrets)), name, key, value)
  {
    hide SealAll, NotNamed;
    SealAllMembers(mem.secrets, writer, iv);
    NotNamedMembers(mem.quarantined, Names(mem.secrets));
    var f :| f in mem.quarantined && f.name == name;
    assert f in NotNamed(mem.quarantined, Names(mem.secrets));
    assert f in SealAll(mem.secrets, writer, iv) + NotNamed(mem.quarantined, Names(mem.secrets));
  }

  /** What an operation may do to memory without touching a name: nothing, or a table change that keeps the name's entries as they are. */
  ghost predicate KeepsName(mem: Memory, mem': Memory, name: string) {
    && mem'.frozenVersion == mem.frozenVersion
    && (name in Names(mem.secrets) <==> name in Names(mem'.secrets))
    && (forall e :: e in mem'.secrets && e.name == name ==> exists d :: d in mem.secrets && d.name == name && d.value == e.value)
    && (forall f: FileEntry :: f.name == name ==> (f in mem'.quarantined <==> f in mem.quarantined))
  }

  lemma KeptNameHolds(p: Process, mem': Memory, name: string, key: Key, value: string)
    requires MemoryHolds(p, name, key, value) && KeepsName(p.mem, mem', name)
    ensures MemoryHolds(Process(p.key, mem'), name, key, value)
  {
    if p.key == key {
      assert name in Names(mem'.secrets);
    }
  }

  /** An action that sets or deletes the name, and whose write succeeds. */
  predicate Touches(a: Action, name: string) {
    (a.SetSecret? || a.DeleteSecret?) && a.name == name && a.ok
  }

  /** The same value put back under its name. */
  lemma PutSameKeepsName(mem: Memory, e: Entry, name: string)
    requires exists d :: d in mem.secrets && d.name == e.name && d.value == e.value
    ensures KeepsName(mem, mem.(secrets := Put(mem.secrets, e)), name)
  {
    hide Put;
    PutMembers(mem.secrets, e);
    if name in Names(mem.secrets) {
      var d :| d in mem.secrets && d.name == name;
      if e.name == name { assert e in Put(mem.secrets, e); } else { assert d in Put(mem.secrets, e); }
    }
  }

  lemma PutKeepsName(mem: Memory, e: Entry, name: string)
    requires e.name != name
    ensures KeepsName(mem, mem.(secrets := Put(mem.secrets, e), quarantined := NotNamed(mem.quarantined, {e.name})), name)
  {
    hide Put, NotNamed;
    PutMembers(mem.secrets, e);
    NotNamedMembers(mem.quarantined, {e.name});
    if name in Names(mem.secrets) {
      var d :| d in mem.secrets && d.name == name;
      assert d in Put(mem.secrets, e);
    }
  }

  lemma WithoutKeepsName(mem: Memory, gone: string, name: string)
    requires gone != name
    ensures KeepsName(mem, mem.(secrets := Without(mem.secrets, gone), quarantined := NotNamed(mem.quarantined, {gone})), name)
  {
    hide Without, NotNamed;
    WithoutMembers(mem.secrets, gone);
    NotNamedMembers(mem.quarantined, {gone});
    if name in Names(mem.secrets) {
      var d :| d in mem.secrets && d.name == name;
      assert d in Without(mem.secrets, gone);
    }
  }

  /** An operation ends with the disk as it was, or with exactly its new memory written. */
  lemma WritesOrLeaves(v: Vault, key: Key, a: Action, derive: Derive)
    requires IsOperation(a)
    ensures var w := Perform(v, key, a, derive).vault; w.disk == v.disk || w == Write(w.mem, key, a.iv)
    ensures Perform(v, key, a, derive).vault.disk == v.disk || CanWrite(v, a.ok)
    ensures Perform(v, key, a, derive).vault.mem.frozenVersion == v.mem.frozenVersion
  {
    hide EncryptFile, Replacement, Put, Find, Without, NotNamed, Kept, WithApprovals;
  }

  lemma OperationKeepsName(v: Vault, key: Key, a: Action, derive: Derive, name: string)
    requires IsOperation(a) && !Touches(a, name)
    ensures KeepsName(v.mem, Perform(v, key, a, derive).vault.mem, name)
  {
    hide EncryptFile, Put, Find, Without, NotNamed, Kept, KeepsName, Merge;
    SameKeepsName(v.mem, name);
    match a
    case SetSecret(n, value, given, now, iv, ok) =>
      if n != name { PutKeepsName(v.mem, Replacement(n, value, given, Find(v.mem.secrets, n), now, derive), name); }
    case DeleteSecret(n, _, _) =>
      if n != name { WithoutKeepsName(v.mem, n, name); }
    case ApproveDestination(n, destination, now, _, _) =>
      FindIsFirst(v.mem.secrets, n);
      if Find(v.mem.secrets, n).Some? {
        var e := Find(v.mem.secrets, n).value;
        PutSameKeepsName(v.mem, WithApprovals(e, e.meta.approvals.GetOr([]) + [Approval(destination.GetOr(""), now)], now), name);
      }
    case RevokeDestination(n, destination, now, _, _) =>
      FindIsFirst(v.mem.secrets, n);
      if Find(v.mem.secrets, n).Some? && Find(v.mem.secrets, n).value.meta.approvals.Some? {
        var e := Find(v.mem.secrets, n).value;
        PutSameKeepsName(v.mem, WithApprovals(e, Kept(e.meta.approvals.value, destination), now), name);
      }
    case SeedDone(_, _) => SeedKeepsName(v.mem, name);
  }

  lemma SameKeepsName(mem: Memory, name: string)
    ensures KeepsName(mem, mem, name)
  {
  }

  lemma SeedKeepsName(mem: Memory, name: string)
    ensures KeepsName(mem, mem.(seedPending := false), name)
  {
  }

  lemma StepHolds(s: State, a: Action, derive: Derive, name: string, key: Key, value: string)
    requires Holds(s, name, key, value) && !Touches(a, name)
    ensures Holds(Step(s, a, derive), name, key, value)
  {
    hide MemoryHolds, EntriesHold, Load, KeepsName, Perform, EncryptFile;
    if a.Boot? {
      LoadHolds(s.disk.value.entries, s.disk.value.version.value, a.key, derive, name, key, value);
    } else if IsOperation(a) && s.process.Some? {
      var p := s.process.value;
      var v, w := Vault(p.mem, s.disk), Perform(Vault(p.mem, s.disk), p.key, a, derive).vault;
      OperationKeepsName(v, p.key, a, derive, name);
      WritesOrLeaves(v, p.key, a, derive);
      KeptNameHolds(p, w.mem, name, key, value);
      WriteHolds(w.mem, p.key, a.iv, name, key, value);
    }
  }

  lemma {:induction false} RunHolds(s: State, run: seq<Action>, derive: Derive, name: string, key: Key, value: string)
    requires Holds(s, name, key, value) && forall a :: a in run ==> !Touches(a, name)
    ensures Holds(RunAll(s, run, derive), name, key, value)
    decreases |run|
  {
    hide Holds, Step;
    if run != [] {
      assert run[0] in run && (forall a :: a in run[1..] ==> a in run);
      StepHolds(s, run[0], derive, name, key, value);
      RunHolds(Step(s, run[0], derive), run[1..], derive, name, key, value);
    }
  }

  lemma SetHolds(s: State, a: Action, derive: Derive)
    requires TableIsMap(s) && s.process.Some? && s.process.value.mem.frozenVersion.None? && a.SetSecret? && a.ok
    ensures Holds(Step(s, a, derive), a.name, s.process.value.key, a.value)
  {
    hide EncryptFile, Put, Find, NotNamed, Merge;
    var p := s.process.value;
    var e := Replacement(a.name, a.value, a.given, Find(p.mem.secrets, a.name), a.now, derive);
    var mem' := Step(s, a, derive).process.value.mem;
    assert mem'.secrets == Put(p.mem.secrets, e) && mem'.quarantined == NotNamed(p.mem.quarantined, {a.name});
    NotNamedMembers(p.mem.quarantined, {a.name});
    PutMembers(p.mem.secrets, e);
    PutDistinct(p.mem.secrets, e);
    WriteHolds(mem', p.key, a.iv, a.name, p.key, a.value);
  }

  /**
   A value written under a key is there at every later boot under that key, whatever boots, crashes, failed
   writes and other operations lie between, as long as no successful set or delete names it; at a boot under
   another key it is quarantined, not live and not lost.
   */
  lemma SecretsSurviveKeyChanges(s: State, written: Action, later: seq<Action>, derive: Derive)
    requires TableIsMap(s) && s.process.Some? && s.process.value.mem.frozenVersion.None? && written.SetSecret? && written.ok
    requires forall a :: a in later ==> !Touches(a, written.name)
    ensures var disk := RunAll(Step(s, written, derive), later, derive).disk;
            forall boot: Key ::
              var mem := Load(disk, boot, derive);
              if boot == s.process.value.key then
                Find(mem.secrets, written.name).Some? && Find(mem.secrets, written.name).value.value == written.value
              else
                && Find(mem.secrets, written.name).None?
                && exists f :: f in mem.quarantined && f.name == written.name
                                 && Decrypt(f.encrypted, s.process.value.key) == Some(written.value)
  {
    hide Step, RunAll, Load, EntriesHold;
    var key := s.process.value.key;
    SetHolds(s, written, derive);
    RunHolds(Step(s, written, derive), later, derive, written.name, key, written.value);
    var disk := RunAll(Step(s, written, derive), later, derive).disk;
    forall boot: Key
      ensures var mem := Load(disk, boot, derive);
              if boot == key then Find(mem.secrets, written.name).Some? && Find(mem.secrets, written.name).value.value == written.value
              else Find(mem.secrets, written.name).None?
                   && exists f :: f in mem.quarantined && f.name == written.name && Decrypt(f.encrypted, key) == Some(written.value)
    {
      LoadHolds(disk.value.entries, disk.value.version.value, boot, derive, written.name, key, written.value);
      MemoryShows(Process(boot, Load(disk, boot, derive)), written.name, key, written.value);
    }
  }

  lemma MemoryShows(p: Process, name: string, key: Key, value: string)
    requires MemoryHolds(p, name, key, value)
    ensures if p.key == key then Find(p.mem.secrets, name).Some? && Find(p.mem.secrets, name).value.value == value
            else Find(p.mem.secrets, name).None?
                 && exists f :: f in p.mem.quarantined && f.name == name && Decrypt(f.encrypted, key) == Some(value)
  {
    FindIsFirst(p.mem.secrets, name);
  }

  // ---- ciphertext nobody can open ----

  ghost predicate SoleEntry(entries: seq<FileEntry>, q: FileEntry) {
    q in entries && forall f :: f in entries && f.name == q.name ==> f == q
  }

  /** The entry is on disk as it was, and a running process holds it in quarantine with nothing live of its name. */
  ghost predicate KeepsCiphertext(s: State, q: FileEntry) {
    && Readable(s.disk) && SoleEntry(s.disk.value.entries, q)
    && (s.process.Some? ==>
          var mem := s.process.value.mem;
          mem.frozenVersion.None? && q.name !in Names(mem.secrets) && SoleEntry(mem.quarantined, q))
  }

  lemma WriteKeepsCiphertext(mem: Memory, key: Key, iv: nat, q: FileEntry)
    requires q.name !in Names(mem.secrets) && SoleEntry(mem.quarantined, q)
    ensures SoleEntry(Write(mem, key, iv).disk.value.entries, q)
  {
    hide SealAll, NotNamed;
    SealAllMembers(mem.secrets, key, iv);
    NotNamedMembers(mem.quarantined, Names(mem.secrets));
    assert q in NotNamed(mem.quarantined, Names(mem.secrets));
  }

  lemma LoadKeepsCiphertext(entries: seq<FileEntry>, version: int, key: Key, derive: Derive, q: FileEntry)
    requires SoleEntry(entries, q) && Decrypt(q.encrypted, key).None? && version <= SECRETS_FILE_VERSION
    ensures var mem := Load(Some(File(Some(version), entries)), key, derive);
            mem.frozenVersion.None? && q.name !in Names(mem.secrets) && SoleEntry(mem.quarantined, q)
  {
    hide Opened, Unopened;
    OpenedMembers(entries, key, derive);
    UnopenedMembers(entries, key);
  }

  lemma StepKeepsCiphertext(s: State, a: Action, derive: Derive, q: FileEntry)
    requires KeepsCiphertext(s, q) && !Touches(a, q.name) && (a.Boot? ==> Decrypt(q.encrypted, a.key).None?)
    ensures KeepsCiphertext(Step(s, a, derive), q)
  {
    hide Load, Perform, EncryptFile;
    if a.Boot? {
      LoadKeepsCiphertext(s.disk.value.entries, s.disk.value.version.value, a.key, derive, q);
    } else if IsOperation(a) && s.process.Some? {
      var p := s.process.value;
      var v, w := Vault(p.mem, s.disk), Perform(Vault(p.mem, s.disk), p.key, a, derive).vault;
      OperationKeepsName(v, p.key, a, derive, q.name);
      WritesOrLeaves(v, p.key, a, derive);
      assert q in w.mem.quarantined;
      WriteKeepsCiphertext(w.mem, p.key, a.iv, q);
      if w == Write(w.mem, p.key, a.iv) { WriteIsReadable(w.mem, p.key, a.iv); }
    }
  }

  lemma WriteIsReadable(mem: Memory, key: Key, iv: nat)
    ensures Readable(Write(mem, key, iv).disk)
  {
  }

  /** An entry of a name of its own that no boot of the run can open stays in the file, byte for byte. */
  lemma {:induction false} UnopenedCiphertextIsKept(s: State, run: seq<Action>, derive: Derive, q: FileEntry)
    requires KeepsCiphertext(s, q)
    requires forall a :: a in run ==> !Touches(a, q.name) && (a.Boot? ==> Decrypt(q.encrypted, a.key).None?)
    ensures KeepsCiphertext(RunAll(s, run, derive), q)
    decreases |run|
  {
    hide KeepsCiphertext, Step;
    if run != [] {
      assert run[0] in run && (forall a :: a in run[1..] ==> a in run);
      StepKeepsCiphertext(s, run[0], derive, q);
      UnopenedCiphertextIsKept(Step(s, run[0], derive), run[1..], derive, q);
    }
  }

  /**
   A boot and a save write back every entry the boot could not open exactly when the file it read has no
   openable entry under the name of an unopenable one.
   */
  lemma SaveKeepsUnopened(entries: seq<FileEntry>, key: Key, derive: Derive, iv: nat)
    ensures var mem := Load(Some(File(Some(SECRETS_FILE_VERSION), entries)), key, derive);
            (forall f :: f in entries && Decrypt(f.encrypted, key).None? ==> f in Write(mem, key, iv).disk.value.entries)
            <==> (forall f, g :: f in entries && g in entries && f.name == g.name && Decrypt(f.encrypted, key).None?
                    ==> Decrypt(g.encrypted, key).None?)
  {
    hide SealAll, NotNamed, Opened, Unopened;
    var mem := Load(Some(File(Some(SECRETS_FILE_VERSION), entries)), key, derive);
    OpenedMembers(entries, key, derive);
    UnopenedMembers(entries, key);
    SealAllMembers(mem.secrets, key, iv);
    NotNamedMembers(mem.quarantined, Names(mem.secrets));
    var written := Write(mem, key, iv).disk.value.entries;
    forall f | f in entries && Decrypt(f.encrypted, key).None?
      ensures f in written <==> forall g :: g in entries && f.name == g.name ==> Decrypt(g.encrypted, key).None?
    {
      assert f in written <==> f.name !in Names(mem.secrets);
      forall g | g in entries && g.name == f.name && Decrypt(g.encrypted, key).Some? ensures f.name in Names(mem.secrets) {
        OpenableIsLive(entries, key, derive, g);
      }
    }
  }

  lemma TwoSteps(s: State, a: Action, b: Action, derive: Derive)
    ensures RunAll(s, [a, b], derive) == Step(Step(s, a, derive), b, derive)
  {
    hide Step;
    assert [a, b][1..] == [b] && [b][1..] == [];
    assert RunAll(s, [a, b], derive) == RunAll(Step(s, a, derive), [b], derive);
  }

  /** Two entries of one name under different keys: a boot under the first and any save lose the second. */
  lemma DuplicateNamesLoseCiphertext(derive: Derive)
    ensures var meta := Meta(Details(None, None, None, None, None, None), None, 1, 1);
            var a, b := FileEntry("A", meta, None, Sealed(Key(1), 0, "x")), FileEntry("A", meta, None, Sealed(Key(2), 0, "y"));
            var s := RunAll(State(Some(File(Some(2), [a, b])), None), [Boot(Key(1)), SeedDone(7, true)], derive);
            Find(Load(s.disk, Key(2), derive).secrets, "A").None?
  {
    var meta := Meta(Details(None, None, None, None, None, None), None, 1, 1);
    var a, b := FileEntry("A", meta, None, Sealed(Key(1), 0, "x")), FileEntry("A", meta, None, Sealed(Key(2), 0, "y"));
    var s0 := State(Some(File(Some(2), [a, b])), None);
    var s := RunAll(s0, [Boot(Key(1)), SeedDone(7, true)], derive);
    TwoSteps(s0, Boot(Key(1)), SeedDone(7, true), derive);
    var mem := Step(s0, Boot(Key(1)), derive).process.value.mem;
    assert a in [a, b];
    OpenableIsLive([a, b], Key(1), derive, a);
    LiveNameIsSealedAfresh(mem.(seedPending := false), Key(1), 7, "A");
    OnlyOpenableIsLive(s.disk.value.entries, Key(2), derive, "A");
  }

  /** Once a name is live, every entry a save writes for it is under the current key. */
  lemma LiveNameIsSealedAfresh(mem: Memory, key: Key, iv: nat, name: string)
    requires name in Names(mem.secrets)
    ensures forall f :: f in Write(mem, key, iv).disk.value.entries && f.name == name ==> Decrypt(f.encrypted, key).Some?
  {
    hide SealAll, NotNamed, Names;
    SealAllMembers(mem.secrets, key, iv);
    NotNamedMembers(mem.quarantined, Names(mem.secrets));
  }

  lemma OnlyOpenableIsLive(entries: seq<FileEntry>, key: Key, derive: Derive, name: string)
    requires forall f :: f in entries && f.name == name ==> Decrypt(f.encrypted, key).None?
    ensures Find(Opened(entries, key, derive), name).None?
  {
    hide Opened;
    OpenedMembers(entries, key, derive);
    FindIsFirst(Opened(entries, key, derive), name);
  }

  // ---- failed writes ----

  /** A set or delete that fails leaves memory and file as they were. */
  lemma FailedWriteChangesNothing(v: Vault, key: Key, a: Action, derive: Derive)
    requires (a.SetSecret? || a.DeleteSecret?) && Perform(v, key, a, derive).outcome.Failed?
    ensures Perform(v, key, a, derive).vault == v
  {
  }

  /** An approval whose write fails leaves the file but stands in memory: it was not approved before and is now. */
  lemma FailedApprovalStands(v: Vault, key: Key, a: Action, derive: Derive)
    requires a.ApproveDestination? && Perform(v, key, a, derive).outcome.Failed?
    ensures var w := Perform(v, key, a, derive).vault;
            && w.disk == v.disk
            && Find(v.mem.secrets, a.name).Some? && Find(w.mem.secrets, a.name).Some? && a.destination.Some?
            && !Approved(Find(v.mem.secrets, a.name).value, a.destination.value)
            && Approved(Find(w.mem.secrets, a.name).value, a.destination.value)
  {
    var e := Find(v.mem.secrets, a.name).value;
    var approvals := e.meta.approvals.GetOr([]) + [Approval(a.destination.value, a.now)];
    FindIsFirst(v.mem.secrets, a.name);
    FindPut(v.mem.secrets, WithApprovals(e, approvals, a.now), a.name);
    assert Approval(a.destination.value, a.now) in approvals;
  }

  // ---- newer files ----

  ghost predicate Newer(file: Option<File>) {
    file.Some? && file.value.File? && (file.value.version.None? || file.value.version.value > SECRETS_FILE_VERSION)
  }

  /** A file this build cannot read whole is never rewritten, and no operation on it reports a save. */
  lemma {:induction false} NewerFileIsNeverRewritten(s: State, run: seq<Action>, derive: Derive)
    requires Newer(s.disk) && (s.process.Some? ==> s.process.value.mem.frozenVersion.Some?)
    ensures RunAll(s, run, derive).disk == s.disk
    decreases |run|
  {
    if run != [] {
      var a := run[0];
      if IsOperation(a) && s.process.Some? {
        WritesOrLeaves(Vault(s.process.value.mem, s.disk), s.process.value.key, a, derive);
      }
      hide Perform;
      NewerFileIsNeverRewritten(Step(s, a, derive), run[1..], derive);
    }
  }

  // ---- approvals are bound to an origin ----

  function OriginOf(e: Entry): Option<string> { e.meta.details.origin }

  /** No operation moves a secret to another origin and keeps an approval, and only approving adds one. */
  lemma ApprovalsAreBoundToOrigin(v: Vault, key: Key, a: Action, derive: Derive, name: string, destination: string)
    requires IsOperation(a) && Distinct(v.mem.secrets)
    requires Find(Perform(v, key, a, derive).vault.mem.secrets, name).Some?
    requires Approved(Find(Perform(v, key, a, derive).vault.mem.secrets, name).value, destination)
    ensures Find(v.mem.secrets, name).Some?
    ensures OriginOf(Find(Perform(v, key, a, derive).vault.mem.secrets, name).value) == OriginOf(Find(v.mem.secrets, name).value)
    ensures Approved(Find(v.mem.secrets, name).value, destination)
            || (a.ApproveDestination? && a.name == name && a.destination == Some(destination))
  {
    hide EncryptFile, NotNamed, Merge, Distinct, Put, Find, Without, Kept;
    var t, w := v.mem.secrets, Perform(v, key, a, derive).vault;
    match a
    case SetSecret(n, value, given, now, iv, ok) =>
      FindPut(t, Replacement(n, value, given, Find(t, n), now, derive), name);
    case DeleteSecret(n, _, _) => FindDeleted(t, n, name);
    case ApproveDestination(n, d, now, _, _) =>
      if Find(t, n).Some? {
        var e := Find(t, n).value;
        FindIsFirst(t, n);
        FindPut(t, WithApprovals(e, e.meta.approvals.GetOr([]) + [Approval(d.GetOr(""), now)], now), name);
      }
    case RevokeDestination(n, d, now, _, _) =>
      if Find(t, n).Some? && Find(t, n).value.meta.approvals.Some? {
        var e := Find(t, n).value;
        FindIsFirst(t, n);
        KeptMembers(e.meta.approvals.value, d);
        FindPut(t, WithApprovals(e, Kept(e.meta.approvals.value, d), now), name);
      }
    case SeedDone(_, _) =>
  }

  lemma {:induction false} KeptMembers(approvals: seq<Approval>, destination: Option<string>)
    ensures forall a :: a in Kept(approvals, destination) <==> a in approvals && Some(a.origin) != destination
  {
    if approvals != [] { KeptMembers(approvals[1..], destination); }
  }

  lemma FindDeleted(table: seq<Entry>, gone: string, name: string)
    requires Distinct(table)
    ensures Find(Without(table, gone), name) == if name == gone then None else Find(table, name)
  {
    if name != gone {
      FindWithout(table, gone, name);
    } else {
      WithoutDistinct(table, gone);
      FindIsFirst(Without(table, gone), gone);
    }
  }

  // ---- the destination seed ----

  predicate Pending(file: Option<File>) {
    file.Some? && file.value.File? && file.value.version == Some(1)
  }

  /** A boot still has the seed pending exactly while nothing has been saved: any save, seeded or not, ends it. */
  lemma {:induction false} SeedIsPendingUntilFirstSave(s: State, run: seq<Action>, key: Key, derive: Derive)
    ensures var disk := RunAll(s, run, derive).disk;
            Load(disk, key, derive).seedPending <==> Pending(s.disk) && disk == s.disk
    decreases |run|
  {
    SeedOfFile(RunAll(s, run, derive).disk, key, derive);
    if run != [] {
      var s' := Step(s, run[0], derive);
      SeedIsPendingUntilFirstSave(s', run[1..], key, derive);
      SeedOfFile(s.disk, key, derive);
      if IsOperation(run[0]) && s.process.Some? {
        var p := s.process.value;
        WritesOrLeaves(Vault(p.mem, s.disk), p.key, run[0], derive);
        WrittenIsNotPending(s'.process.value.mem, p.key, run[0].iv);
      }
    }
  }

  lemma SeedOfFile(file: Option<File>, key: Key, derive: Derive)
    ensures Load(file, key, derive).seedPending == Pending(file)
  {
  }

  lemma WrittenIsNotPending(mem: Memory, key: Key, iv: nat)
    ensures !Pending(Write(mem, key, iv).disk)
  {
  }
}
