/**
 The encrypted secrets vault: an ordered table of live secrets, the entries the current
 master key could not open, and one file rewritten as a whole by every save. The cipher is
 an authenticated one: a ciphertext opens under the key that sealed it and no other.
 */
module Vault {
  import opened Wrappers

  // ---- cipher ----

  datatype Key = Key(id: nat)

  /** `Sealed` is what encrypt makes; anything else found in a file is `Garbage`. */
  datatype Cipher = Sealed(key: Key, iv: nat, plain: string) | Garbage(raw: string)

  function Encrypt(plain: string, key: Key, iv: nat): Cipher { Sealed(key, iv, plain) }

  function Decrypt(c: Cipher, key: Key): Option<string> {
    if c.Sealed? && c.key == key then Some(c.plain) else None
  }

  // ---- entries and files ----

  datatype Approval = Approval(origin: string, approvedAt: int)

  datatype Details = Details(service: Option<string>, account: Option<string>, url: Option<string>, notes: Option<string>,
                             origin: Option<string>, createdBySession: Option<string>)

  datatype Meta = Meta(details: Details, approvals: Option<seq<Approval>>, addedAt: int, updatedAt: int)

  datatype Entry = Entry(name: string, value: string, meta: Meta)

  datatype FileEntry = FileEntry(name: string, meta: Meta, approvedFills: Option<seq<Approval>>, encrypted: Cipher)

  /** A file that parses has a version, unless that is not a number. */
  datatype File = Unparseable | File(version: Option<int>, entries: seq<FileEntry>)

  const SECRETS_FILE_VERSION := 2

  /** Deriving an origin from a URL text is a parameter; a missing or blank URL has none. */
  type Derive = string -> Option<string>

  function DeriveOrigin(url: Option<string>, derive: Derive): Option<string> {
    match url
    case Some(u) => if u == "" then None else derive(u)
    case None => None
  }

  // ---- the live table: insertion order, one entry a name ----

  function Find(table: seq<Entry>, name: string): Option<Entry> {
    if table == [] then None else if table[0].name == name then Some(table[0]) else Find(table[1..], name)
  }

  function Put(table: seq<Entry>, e: Entry): seq<Entry> {
    if table == [] then [e]
    else if table[0].name == e.name then [e] + table[1..]
    else [table[0]] + Put(table[1..], e)
  }

  function Without(table: seq<Entry>, name: string): seq<Entry> {
    if table == [] then []
    else if table[0].name == name then table[1..]
    else [table[0]] + Without(table[1..], name)
  }

  function Names(table: seq<Entry>): set<string> {
    set e | e in table :: e.name
  }

  function NotNamed(entries: seq<FileEntry>, names: set<string>): seq<FileEntry> {
    if entries == [] then []
    else (if entries[0].name in names then [] else [entries[0]]) + NotNamed(entries[1..], names)
  }

  // ---- the file as a function of memory, and memory as a function of the file ----

  function SealEntry(e: Entry, key: Key, iv: nat): FileEntry {
    FileEntry(e.name, e.meta, None, Encrypt(e.value, key, iv))
  }

  function SealAll(table: seq<Entry>, key: Key, iv: nat): seq<FileEntry> {
    seq(|table|, i requires 0 <= i < |table| => SealEntry(table[i], key, iv + i))
  }

  /** encryptSecretsFile: the live entries sealed afresh, then the quarantined ones whose name is not live, as they are. */
  function EncryptFile(table: seq<Entry>, quarantined: seq<FileEntry>, key: Key, iv: nat): File {
    File(Some(SECRETS_FILE_VERSION), SealAll(table, key, iv) + NotNamed(quarantined, Names(table)))
  }

  function OpenEntry(f: FileEntry, value: string, derive: Derive): Entry {
    var d := f.meta.details;
    var details := Details(d.service, d.account, d.url, d.notes, d.origin.OrElse(DeriveOrigin(d.url, derive)), d.createdBySession);
    Entry(f.name, value, Meta(details, f.meta.approvals.OrElse(f.approvedFills), f.meta.addedAt, f.meta.updatedAt))
  }

  /** Entries that open under the key, each on its own; the last of one name wins. */
  function Opened(entries: seq<FileEntry>, key: Key, derive: Derive): seq<Entry> {
    if entries == [] then []
    else
      var last := entries[|entries| - 1];
      var before := Opened(entries[..|entries| - 1], key, derive);
      match Decrypt(last.encrypted, key)
      case Some(value) => Put(before, OpenEntry(last, value, derive))
      case None => before
  }

  function Unopened(entries: seq<FileEntry>, key: Key): seq<FileEntry> {
    if entries == [] then []
    else
      var before := Unopened(entries[..|entries| - 1], key);
      if Decrypt(entries[|entries| - 1].encrypted, key).None? then before + [entries[|entries| - 1]] else before
  }

  datatype Memory = Memory(secrets: seq<Entry>, quarantined: seq<FileEntry>, frozenVersion: Option<int>, seedPending: bool)

  const EMPTY := Memory([], [], None, false)

  /** What a boot holds in memory: nothing for a missing, unparseable or newer file. */
  function Load(file: Option<File>, key: Key, derive: Derive): Memory {
    match file
    case None => EMPTY
    case Some(Unparseable) => EMPTY
    case Some(File(version, entries)) =>
      if version.None? || version.value > SECRETS_FILE_VERSION then EMPTY.(frozenVersion := Some(version.GetOr(-1)))
      else Memory(Opened(entries, key, derive), Unopened(entries, key), None, version.value == 1)
  }

  // ---- operations ----

  datatype Outcome = Done(result: bool) | Failed

  /** A running store and its file. */
  datatype Vault = Vault(mem: Memory, disk: Option<File>)

  datatype Effect = Effect(vault: Vault, outcome: Outcome)

  /** Can save replace the file? Not when frozen, and not when the atomic write throws. */
  predicate CanWrite(v: Vault, ok: bool) { ok && v.mem.frozenVersion.None? }

  function Write(mem: Memory, key: Key, iv: nat): Vault {
    Vault(mem, Some(EncryptFile(mem.secrets, mem.quarantined, key, iv)))
  }

  /** set and delete: memory changes only once the file has. */
  function Commit(v: Vault, mem: Memory, key: Key, iv: nat, ok: bool): Effect {
    if CanWrite(v, ok) then Effect(Write(mem, key, iv), Done(true)) else Effect(v, Failed)
  }

  /** The approval methods and the seed mark: memory changes first, then the file is written. */
  function InPlace(v: Vault, mem: Memory, key: Key, iv: nat, ok: bool): Effect {
    if CanWrite(v, ok) then Effect(Write(mem, key, iv), Done(true)) else Effect(Vault(mem, v.disk), Failed)
  }

  function MovedTo(given: Details, prior: Option<Entry>, derive: Derive): Option<string> {
    if given.url.Some? && !(prior.Some? && prior.value.meta.details.url == given.url) then DeriveOrigin(given.url, derive) else None
  }

  function Merge(given: Details, prior: Option<Entry>, derive: Derive): Details {
    var was := match prior case Some(e) => e.meta.details case None => Details(None, None, None, None, None, None);
    var url := given.url.OrElse(was.url);
    Details(given.service.OrElse(was.service), given.account.OrElse(was.account), url, given.notes.OrElse(was.notes),
            given.origin.OrElse(MovedTo(given, prior, derive).OrElse(was.origin.OrElse(DeriveOrigin(url, derive)))),
            given.createdBySession.OrElse(was.createdBySession))
  }

  /** The entry set writes over an earlier one of the same name. */
  function Replacement(name: string, value: string, given: Details, prior: Option<Entry>, now: int, derive: Derive): Entry {
    var details := Merge(given, prior, derive);
    Entry(name, value, Meta(details,
      if prior.Some? && prior.value.meta.details.origin == details.origin then prior.value.meta.approvals else None,
      if prior.Some? && prior.value.meta.addedAt != 0 then prior.value.meta.addedAt else now,
      now))
  }

  function Set(v: Vault, name: string, value: string, given: Details, now: int, key: Key, derive: Derive, iv: nat, ok: bool): Effect {
    var entry := Replacement(name, value, given, Find(v.mem.secrets, name), now, derive);
    Commit(v, v.mem.(secrets := Put(v.mem.secrets, entry), quarantined := NotNamed(v.mem.quarantined, {name})), key, iv, ok)
  }

  predicate Known(mem: Memory, name: string) {
    Find(mem.secrets, name).Some? || |NotNamed(mem.quarantined, {name})| < |mem.quarantined|
  }

  function Delete(v: Vault, name: string, key: Key, iv: nat, ok: bool): Effect {
    if Known(v.mem, name) then
      Commit(v, v.mem.(secrets := Without(v.mem.secrets, name), quarantined := NotNamed(v.mem.quarantined, {name})), key, iv, ok)
    else Effect(v, Done(false))
  }

  predicate Approved(e: Entry, destination: string) {
    e.meta.approvals.Some? && exists a :: a in e.meta.approvals.value && a.origin == destination
  }

  function WithApprovals(e: Entry, approvals: seq<Approval>, now: int): Entry {
    e.(meta := e.meta.(approvals := Some(approvals), updatedAt := now))
  }

  /** `destination` is the normalized key, absent for text that is no destination. */
  function Approve(v: Vault, name: string, destination: Option<string>, now: int, key: Key, iv: nat, ok: bool): Effect {
    var entry := Find(v.mem.secrets, name);
    if entry.None? || destination.GetOr("") == "" then Effect(v, Done(false))
    else if Approved(entry.value, destination.value) then Effect(v, Done(true))
    else
      var approvals := entry.value.meta.approvals.GetOr([]) + [Approval(destination.value, now)];
      InPlace(v, v.mem.(secrets := Put(v.mem.secrets, WithApprovals(entry.value, approvals, now))), key, iv, ok)
  }

  function Kept(approvals: seq<Approval>, destination: Option<string>): seq<Approval> {
    if approvals == [] then []
    else (if Some(approvals[0].origin) == destination then [] else [approvals[0]]) + Kept(approvals[1..], destination)
  }

  function RevokeApproval(v: Vault, name: string, destination: Option<string>, now: int, key: Key, iv: nat, ok: bool): Effect {
    var entry := Find(v.mem.secrets, name);
    if entry.None? || entry.value.meta.approvals.None? then Effect(v, Done(false))
    else
      var kept := Kept(entry.value.meta.approvals.value, destination);
      if |kept| == |entry.value.meta.approvals.value| then Effect(v, Done(false))
      else InPlace(v, v.mem.(secrets := Put(v.mem.secrets, WithApprovals(entry.value, kept, now))), key, iv, ok)
  }

  function MarkSeedDone(v: Vault, key: Key, iv: nat, ok: bool): Effect {
    InPlace(v, v.mem.(seedPending := false), key, iv, ok)
  }

  // ---- the store ----

  class Disk {
    var file: Option<File>

    constructor (file: Option<File>)
      ensures this.file == file
    {
      this.file := file;
    }
  }

  class SecretsStore {
    const key: Key
    const derive: Derive
    const disk: Disk
    var secrets: seq<Entry>
    var quarantined: seq<FileEntry>
    var frozenVersion: Option<int>
    var seedPending: bool

    ghost function Abs(): Vault
      reads this, disk
    {
      Vault(Memory(secrets, quarantined, frozenVersion, seedPending), disk.file)
    }

    constructor (disk: Disk, key: Key, derive: Derive)
      ensures this.disk == disk && this.key == key && this.derive == derive
      ensures Abs() == Vault(Load(disk.file, key, derive), old(disk.file))
    {
      this.disk, this.key, this.derive := disk, key, derive;
      secrets, quarantined, frozenVersion, seedPending := [], [], None, false;
      new;
      LoadFile();
    }

    method LoadFile()
      requires Abs().mem == EMPTY
      modifies this
      ensures Abs() == Vault(Load(disk.file, key, derive), old(disk.file))
    {
      if disk.file.None? || disk.file.value.Unparseable? {
        return;
      }
      var version := disk.file.value.version;
      if version.None? || version.value > SECRETS_FILE_VERSION {
        frozenVersion := Some(if version.Some? then version.value else -1);
        return;
      }
      seedPending := version.value == 1;
      secrets, quarantined := DecryptFile(disk.file.value.entries);
    }

    /** decryptSecretsFile: one bad entry never costs the others. */
    method DecryptFile(entries: seq<FileEntry>) returns (readable: seq<Entry>, sealed: seq<FileEntry>)
      ensures readable == Opened(entries, key, derive) && sealed == Unopened(entries, key)
    {
      readable, sealed := [], [];
      for i := 0 to |entries|
        invariant readable == Opened(entries[..i], key, derive) && sealed == Unopened(entries[..i], key)
      {
        assert entries[..i + 1][..i] == entries[..i];
        var entry := entries[i];
        match Decrypt(entry.encrypted, key)
        case Some(value) => readable := Put(readable, OpenEntry(entry, value, derive));
        case None => sealed := sealed + [entry];
      }
      assert entries[..|entries|] == entries;
    }

    method Save(secrets: seq<Entry>, quarantined: seq<FileEntry>, iv: nat, ok: bool) returns (saved: bool)
      modifies disk
      ensures saved == (ok && frozenVersion.None?)
      ensures disk.file == if saved then Some(EncryptFile(secrets, quarantined, key, iv)) else old(disk.file)
    {
      if frozenVersion.Some? || !ok {
        return false;
      }
      disk.file := Some(EncryptFile(secrets, quarantined, key, iv));
      return true;
    }

    method SetSecret(name: string, value: string, given: Details, now: int, iv: nat, ok: bool) returns (r: Outcome)
      modifies this, disk
      ensures Effect(Abs(), r) == Set(old(Abs()), name, value, given, now, key, derive, iv, ok)
    {
      hide Replacement, EncryptFile, Put, NotNamed;
      var next := Put(secrets, Replacement(name, value, given, Find(secrets, name), now, derive));
      var nextQuarantined := NotNamed(quarantined, {name});
      var saved := Save(next, nextQuarantined, iv, ok);
      if !saved {
        return Failed;
      }
      secrets, quarantined := next, nextQuarantined;
      return Done(true);
    }

    method DeleteSecret(name: string, iv: nat, ok: bool) returns (r: Outcome)
      modifies this, disk
      ensures Effect(Abs(), r) == Delete(old(Abs()), name, key, iv, ok)
    {
      hide EncryptFile, Find, Without, NotNamed;
      var next, nextQuarantined := Without(secrets, name), NotNamed(quarantined, {name});
      var liveExisted := Find(secrets, name).Some?;
      if !liveExisted && |nextQuarantined| >= |quarantined| {
        return Done(false);
      }
      var saved := Save(next, nextQuarantined, iv, ok);
      if !saved {
        return Failed;
      }
      secrets, quarantined := next, nextQuarantined;
      return Done(true);
    }

    method ApproveDestination(name: string, destination: Option<string>, now: int, iv: nat, ok: bool) returns (r: Outcome)
      modifies this, disk
      ensures Effect(Abs(), r) == Approve(old(Abs()), name, destination, now, key, iv, ok)
    {
      hide EncryptFile, Find, Put;
      var entry := Find(secrets, name);
      if entry.None? || destination.GetOr("") == "" {
        return Done(false);
      }
      if Approved(entry.value, destination.value) {
        return Done(true);
      }
      var approvals := entry.value.meta.approvals.GetOr([]) + [Approval(destination.value, now)];
      secrets := Put(secrets, WithApprovals(entry.value, approvals, now));
      var saved := Save(secrets, quarantined, iv, ok);
      return if saved then Done(true) else Failed;
    }

    method RevokeDestinationApproval(name: string, destination: Option<string>, now: int, iv: nat, ok: bool) returns (r: Outcome)
      modifies this, disk
      ensures Effect(Abs(), r) == RevokeApproval(old(Abs()), name, destination, now, key, iv, ok)
    {
      hide EncryptFile, Find, Put, Kept;
      var entry := Find(secrets, name);
      if entry.None? || entry.value.meta.approvals.None? {
        return Done(false);
      }
      var kept := Kept(entry.value.meta.approvals.value, destination);
      if |kept| == |entry.value.meta.approvals.value| {
        return Done(false);
      }
      secrets := Put(secrets, WithApprovals(entry.value, kept, now));
      var saved := Save(secrets, quarantined, iv, ok);
      return if saved then Done(true) else Failed;
    }

    method MarkDestinationSeedDone(iv: nat, ok: bool) returns (r: Outcome)
      modifies this, disk
      ensures Effect(Abs(), r) == MarkSeedDone(old(Abs()), key, iv, ok)
    {
      hide EncryptFile;
      seedPending := false;
      var saved := Save(secrets, quarantined, iv, ok);
      return if saved then Done(true) else Failed;
    }
  }
}
