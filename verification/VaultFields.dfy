/**
 What each operation of the vault leaves in memory and in the file, entry by entry and field by field.
 */
module VaultFields {
  import opened Wrappers
  import opened Vault
  import opened VaultTheorems

  // ---- tables as maps ----

  /** e is the table's one entry of its name, and every entry of another name is one that was there before. */
  ghost predicate Becomes(was: seq<Entry>, now: seq<Entry>, e: Entry) {
    && e in now && (forall x :: x in now && x.name == e.name ==> x == e)
    && (forall x: Entry :: x.name != e.name ==> (x in now <==> x in was))
  }

  lemma {:induction false} PutKeepsOthers(table: seq<Entry>, e: Entry)
    ensures forall x :: x in Put(table, e) && x.name != e.name ==> x in table
    ensures forall x :: x in table && x.name != e.name ==> x in Put(table, e)
    ensures |Put(table, e)| == |table| + if exists x :: x in table && x.name == e.name then 0 else 1
    ensures e in Put(table, e)
  {
    if table != [] {
      PutKeepsOthers(table[1..], e);
      assert table == [table[0]] + table[1..];
    }
  }

  lemma PutBecomes(table: seq<Entry>, e: Entry)
    requires Distinct(table)
    ensures Becomes(table, Put(table, e), e)
  {
    PutDistinct(table, e);
    PutKeepsOthers(table, e);
    hide Distinct, Put;
  }

  /** The quarantine without one name. */
  ghost predicate Drops(was: seq<FileEntry>, now: seq<FileEntry>, name: string) {
    forall q :: q in now <==> q in was && q.name != name
  }

  // ---- set ----

  /** A given detail, or the old one's. */
  predicate Merged(now: Option<string>, given: Option<string>, was: Option<string>) {
    now == if given.Some? then given else was
  }

  /** What the origin of a stored secret is: see SetStores. */
  predicate OriginIs(origin: Option<string>, given: Details, was: Details, derive: Derive) {
    if given.origin.Some? then origin == given.origin
    else if given.url.Some? && given.url != was.url && given.url.value != "" && derive(given.url.value).Some?
      then origin == derive(given.url.value)
    else if was.origin.Some? then origin == was.origin
    else
      var url := if given.url.Some? then given.url else was.url;
      origin == if url.Some? && url.value != "" then derive(url.value) else None
  }

  /** The details of a name not stored before. */
  const NOTHING := Details(None, None, None, None, None, None)

  predicate StoredOver(d: Details, given: Details, was: Details, derive: Derive) {
    && Merged(d.service, given.service, was.service) && Merged(d.account, given.account, was.account)
    && Merged(d.url, given.url, was.url) && Merged(d.notes, given.notes, was.notes)
    && Merged(d.createdBySession, given.createdBySession, was.createdBySession)
    && OriginIs(d.origin, given, was, derive)
  }

  ghost predicate Stored(e: Entry, table: seq<Entry>, name: string, value: string, given: Details, now: int, derive: Derive) {
    && e.name == name && e.value == value && e.meta.updatedAt == now
    && (forall was :: was in table && was.name == name ==>
          && StoredOver(e.meta.details, given, was.meta.details, derive)
          && e.meta.approvals == (if e.meta.details.origin == was.meta.details.origin then was.meta.approvals else None)
          && e.meta.addedAt == if was.meta.addedAt != 0 then was.meta.addedAt else now)
    && ((forall was :: was in table ==> was.name != name) ==>
          StoredOver(e.meta.details, given, NOTHING, derive) && e.meta.approvals == None && e.meta.addedAt == now)
  }

  lemma MergeMerges(given: Details, was: Entry, derive: Derive)
    ensures StoredOver(Merge(given, Some(was), derive), given, was.meta.details, derive)
  {
  }

  lemma MergeAlone(given: Details, derive: Derive)
    ensures StoredOver(Merge(given, None, derive), given, NOTHING, derive)
  {
  }

  lemma ReplacementIsStored(table: seq<Entry>, name: string, value: string, given: Details, now: int, derive: Derive)
    requires Distinct(table)
    ensures Stored(Replacement(name, value, given, Find(table, name), now, derive), table, name, value, given, now, derive)
  {
    hide Merge, Distinct;
    FindIsFirst(table, name);
    if Find(table, name).Some? {
      MergeMerges(given, Find(table, name).value, derive);
      OnlyOne(table, name);
    } else {
      MergeAlone(given, derive);
    }
    hide Find;
  }

  lemma OnlyOne(table: seq<Entry>, name: string)
    requires Distinct(table)
    ensures forall x, y :: x in table && y in table && x.name == name && y.name == name ==> x == y
  {
    forall x, y | x in table && y in table && x.name == name && y.name == name ensures x == y {
      var i :| 0 <= i < |table| && table[i] == x;
      var j :| 0 <= j < |table| && table[j] == y;
    }
  }

  /**
   set: fails and leaves everything as it was when the file cannot be written. Otherwise memory holds the value under the
   name, the other entries and the quarantine of other names as they were, and of the old entry every detail that is not
   given. Its origin is the given one; else what a given URL that differs from the old one derives to; else the old one;
   else what the URL derives to. Its approvals are the old ones exactly when the origin is.
   */
  lemma SetStores(v: Vault, name: string, value: string, given: Details, now: int, key: Key, derive: Derive, iv: nat, ok: bool)
    requires Distinct(v.mem.secrets)
    ensures var r := Set(v, name, value, given, now, key, derive, iv, ok);
            if ok && v.mem.frozenVersion.None? then
              && r.outcome == Done(true)
              && (exists e :: Becomes(v.mem.secrets, r.vault.mem.secrets, e)
                              && Stored(e, v.mem.secrets, name, value, given, now, derive))
              && Drops(v.mem.quarantined, r.vault.mem.quarantined, name)
              && r.vault.mem.seedPending == v.mem.seedPending && r.vault.mem.frozenVersion.None?
              && r.vault.disk.Some? && FileSays(r.vault.disk.value, r.vault.mem, key)
            else r.outcome == Failed && r.vault == v
  {
    hide Becomes, Stored, Distinct, Replacement, Put, NotNamed, EncryptFile, Find, FileSays;
    var e := Replacement(name, value, given, Find(v.mem.secrets, name), now, derive);
    ReplacementIsStored(v.mem.secrets, name, value, given, now, derive);
    assert e.name == name by { ReplacementName(name, value, given, Find(v.mem.secrets, name), now, derive); }
    PutBecomes(v.mem.secrets, e);
    NotNamedMembers(v.mem.quarantined, {name});
    FileHolds(v.mem.(secrets := Put(v.mem.secrets, e), quarantined := NotNamed(v.mem.quarantined, {name})), key, iv);
  }

  lemma ReplacementName(name: string, value: string, given: Details, prior: Option<Entry>, now: int, derive: Derive)
    ensures Replacement(name, value, given, prior, now, derive).name == name
  {
  }

  // ---- what the file says ----

  /** The live entry as a file shows it: the same details, its value sealed under the key. */
  predicate Shows(f: FileEntry, e: Entry, key: Key) {
    f.name == e.name && f.meta == e.meta && f.approvedFills.None? && Decrypt(f.encrypted, key) == Some(e.value)
  }

  /** Version 2, each live entry, each quarantined one verbatim whose name is not live, and nothing else. */
  ghost predicate FileSays(file: File, mem: Memory, key: Key) {
    && file.File? && file.version == Some(2)
    && (forall e :: e in mem.secrets ==> exists f :: f in file.entries && Shows(f, e, key))
    && (forall q :: q in mem.quarantined && (forall e :: e in mem.secrets ==> e.name != q.name) ==> q in file.entries)
    && (forall f :: f in file.entries ==>
          || (exists e :: e in mem.secrets && Shows(f, e, key))
          || (f in mem.quarantined && forall e :: e in mem.secrets ==> e.name != f.name))
  }

  lemma FileHolds(mem: Memory, key: Key, iv: nat)
    ensures FileSays(EncryptFile(mem.secrets, mem.quarantined, key, iv), mem, key)
  {
    var file := EncryptFile(mem.secrets, mem.quarantined, key, iv);
    var sealed, names := SealAll(mem.secrets, key, iv), Names(mem.secrets);
    NotNamedMembers(mem.quarantined, names);
    forall e | e in mem.secrets ensures exists f :: f in file.entries && Shows(f, e, key) {
      var i :| 0 <= i < |mem.secrets| && mem.secrets[i] == e;
      assert sealed[i] in file.entries && Shows(sealed[i], e, key);
    }
    forall f | f in sealed ensures exists e :: e in mem.secrets && Shows(f, e, key) {
      var i :| 0 <= i < |sealed| && sealed[i] == f;
      assert mem.secrets[i] in mem.secrets && Shows(f, mem.secrets[i], key);
    }
  }

  // ---- delete ----

  /**
   delete: nothing happens for a name neither live nor quarantined. For any other, both go and every other entry stays, once
   the file is written, and nothing goes when it cannot be.
   */
  lemma DeleteRemoves(v: Vault, name: string, key: Key, iv: nat, ok: bool)
    requires Distinct(v.mem.secrets)
    ensures var r := Delete(v, name, key, iv, ok);
            var known := (exists e :: e in v.mem.secrets && e.name == name) || (exists q :: q in v.mem.quarantined && q.name == name);
            if !known then r == Effect(v, Done(false))
            else if ok && v.mem.frozenVersion.None? then
              && r.outcome == Done(true)
              && (forall e :: e in r.vault.mem.secrets <==> e in v.mem.secrets && e.name != name)
              && Drops(v.mem.quarantined, r.vault.mem.quarantined, name)
              && r.vault.mem.seedPending == v.mem.seedPending && r.vault.mem.frozenVersion.None?
              && r.vault.disk.Some? && FileSays(r.vault.disk.value, r.vault.mem, key)
            else r == Effect(v, Failed)
  {
    hide Distinct, Without, NotNamed, EncryptFile, Find, FileSays, Known;
    KnownMeans(v.mem, name);
    GoneFromTable(v.mem.secrets, name);
    NotNamedMembers(v.mem.quarantined, {name});
    FileHolds(v.mem.(secrets := Without(v.mem.secrets, name), quarantined := NotNamed(v.mem.quarantined, {name})), key, iv);
  }

  lemma KnownMeans(mem: Memory, name: string)
    ensures Known(mem, name) <==>
            (exists e :: e in mem.secrets && e.name == name) || (exists q :: q in mem.quarantined && q.name == name)
  {
    FindIsFirst(mem.secrets, name);
    NotNamedShrinks(mem.quarantined, name);
    hide Find, NotNamed;
  }

  lemma GoneFromTable(table: seq<Entry>, name: string)
    requires Distinct(table)
    ensures forall e :: e in Without(table, name) <==> e in table && e.name != name
  {
    WithoutDistinct(table, name);
    WithoutMembers(table, name);
    hide Without, Distinct;
  }

  lemma {:induction false} NotNamedShrinks(entries: seq<FileEntry>, name: string)
    ensures |NotNamed(entries, {name})| <= |entries|
    ensures |NotNamed(entries, {name})| < |entries| <==> exists q :: q in entries && q.name == name
  {
    if entries != [] {
      NotNamedShrinks(entries[1..], name);
      assert entries == [entries[0]] + entries[1..];
    }
  }

  // ---- approvals ----

  predicate HasApproval(e: Entry, destination: string) {
    e.meta.approvals.Some? && exists a :: a in e.meta.approvals.value && a.origin == destination
  }

  /** The entry with other approvals, touched now. */
  predicate Reapproved(e: Entry, was: Entry, approvals: seq<Approval>, now: int) {
    && e.name == was.name && e.value == was.value && e.meta.details == was.meta.details && e.meta.addedAt == was.meta.addedAt
    && e.meta.updatedAt == now && e.meta.approvals == Some(approvals)
  }

  /** Memory has changed in that entry, and the file follows if it can be written. */
  ghost predicate Reapproves(v: Vault, r: Effect, was: Entry, approvals: seq<Approval>, now: int, key: Key, ok: bool) {
    && (exists e :: Becomes(v.mem.secrets, r.vault.mem.secrets, e) && Reapproved(e, was, approvals, now))
    && r.vault.mem.quarantined == v.mem.quarantined && r.vault.mem.frozenVersion == v.mem.frozenVersion
    && r.vault.mem.seedPending == v.mem.seedPending
    && if ok && v.mem.frozenVersion.None?
       then r.outcome == Done(true) && r.vault.disk.Some? && FileSays(r.vault.disk.value, r.vault.mem, key)
       else r.outcome == Failed && r.vault.disk == v.disk
  }

  lemma InPlaceReapproves(v: Vault, was: Entry, approvals: seq<Approval>, now: int, key: Key, iv: nat, ok: bool)
    requires Distinct(v.mem.secrets)
    ensures Reapproves(v, InPlace(v, v.mem.(secrets := Put(v.mem.secrets, WithApprovals(was, approvals, now))), key, iv, ok),
                       was, approvals, now, key, ok)
  {
    hide Distinct, Put, EncryptFile, Becomes, FileSays;
    var e := WithApprovals(was, approvals, now);
    PutBecomes(v.mem.secrets, e);
    assert Reapproved(e, was, approvals, now);
    FileHolds(v.mem.(secrets := Put(v.mem.secrets, e)), key, iv);
  }

  /** approveDestination: adds the destination behind the approvals of an entry that has it not. */
  lemma ApproveAdds(v: Vault, was: Entry, destination: Option<string>, now: int, key: Key, iv: nat, ok: bool)
    requires Distinct(v.mem.secrets) && was in v.mem.secrets
    ensures var r := Approve(v, was.name, destination, now, key, iv, ok);
            if destination.None? || destination.value == "" then r == Effect(v, Done(false))
            else if HasApproval(was, destination.value) then r == Effect(v, Done(true))
            else
              var before := if was.meta.approvals.Some? then was.meta.approvals.value else [];
              Reapproves(v, r, was, before + [Approval(destination.value, now)], now, key, ok)
  {
    FindIsFirst(v.mem.secrets, was.name);
    OnlyOne(v.mem.secrets, was.name);
    hide Distinct, Put, EncryptFile, Find, Reapproves, InPlace;
    InPlaceReapproves(v, was, was.meta.approvals.GetOr([]) + [Approval(destination.GetOr(""), now)], now, key, iv, ok);
  }

  /** The approvals of other destinations, in order. */
  ghost predicate Remaining(left: seq<Approval>, was: seq<Approval>, destination: Option<string>) {
    && (forall a :: a in left <==> a in was && Some(a.origin) != destination)
    && multiset(left) <= multiset(was)
  }

  lemma {:induction false} KeptRemains(approvals: seq<Approval>, destination: Option<string>)
    ensures Remaining(Kept(approvals, destination), approvals, destination)
    ensures |Kept(approvals, destination)| <= |approvals|
    ensures |Kept(approvals, destination)| == |approvals| <==> forall a :: a in approvals ==> Some(a.origin) != destination
  {
    KeptMembers(approvals, destination);
    if approvals != [] {
      KeptRemains(approvals[1..], destination);
      assert approvals == [approvals[0]] + approvals[1..];
      assert multiset(approvals) == multiset{approvals[0]} + multiset(approvals[1..]);
    }
  }

  /** revokeDestinationApproval: drops exactly that destination's approvals, and does nothing when there is none. */
  lemma RevokeDrops(v: Vault, was: Entry, destination: Option<string>, now: int, key: Key, iv: nat, ok: bool)
    requires Distinct(v.mem.secrets) && was in v.mem.secrets
    ensures var r := RevokeApproval(v, was.name, destination, now, key, iv, ok);
            if destination.None? || !HasApproval(was, destination.value) then r == Effect(v, Done(false))
            else exists left :: Remaining(left, was.meta.approvals.value, destination) && Reapproves(v, r, was, left, now, key, ok)
  {
    FindIsFirst(v.mem.secrets, was.name);
    OnlyOne(v.mem.secrets, was.name);
    hide Distinct, Put, EncryptFile, Find, Reapproves, InPlace, Kept;
    if was.meta.approvals.Some? {
      KeptRemains(was.meta.approvals.value, destination);
      InPlaceReapproves(v, was, Kept(was.meta.approvals.value, destination), now, key, iv, ok);
    }
    hide Remaining;
  }

  // ---- what a boot reads ----

  /** The entry as the store holds it: its origin derived and its older approvals taken over where the file has none. */
  predicate ReadAs(e: Entry, f: FileEntry, key: Key, derive: Derive) {
    var d := f.meta.details;
    && e.name == f.name && Decrypt(f.encrypted, key) == Some(e.value)
    && e.meta.details == d.(origin := e.meta.details.origin)
    && e.meta.details.origin == (if d.origin.Some? then d.origin
                                 else if d.url.Some? && d.url.value != "" then derive(d.url.value) else None)
    && e.meta.approvals == (if f.meta.approvals.Some? then f.meta.approvals else f.approvedFills)
    && e.meta.addedAt == f.meta.addedAt && e.meta.updatedAt == f.meta.updatedAt
  }

  lemma OpenReads(f: FileEntry, value: string, key: Key, derive: Derive)
    requires Decrypt(f.encrypted, key) == Some(value)
    ensures ReadAs(OpenEntry(f, value, derive), f, key, derive)
  {
  }

  /**
   A boot of a readable file: the entries that open are live under their names with all they say, the others are in the
   quarantine as they are, and the seed is pending for a file of version 1 exactly.
   */
  lemma BootReads(file: File, key: Key, derive: Derive)
    requires file.File? && file.version.Some? && file.version.value <= 2
    ensures var mem := Load(Some(file), key, derive);
            && (forall e :: e in mem.secrets ==> exists f :: f in file.entries && ReadAs(e, f, key, derive))
            && (forall f :: f in file.entries && Decrypt(f.encrypted, key).Some? ==> exists e :: e in mem.secrets && e.name == f.name)
            && (forall f :: f in mem.quarantined <==> f in file.entries && Decrypt(f.encrypted, key).None?)
            && Distinct(mem.secrets) && mem.frozenVersion.None? && (mem.seedPending <==> file.version == Some(1))
  {
    OpenedMembers(file.entries, key, derive);
    UnopenedMembers(file.entries, key);
    OpenedDistinct(file.entries, key, derive);
    hide Opened, Unopened, OpenEntry, Distinct, Decrypt;
    var mem := Load(Some(file), key, derive);
    forall e | e in mem.secrets ensures exists f :: f in file.entries && ReadAs(e, f, key, derive) {
      var f :| f in file.entries && Decrypt(f.encrypted, key) == Some(e.value) && e == OpenEntry(f, e.value, derive);
      OpenReads(f, e.value, key, derive);
    }
    forall f | f in file.entries && Decrypt(f.encrypted, key).Some? ensures exists e :: e in mem.secrets && e.name == f.name {
      OpenableIsLive(file.entries, key, derive, f);
      var e :| e in mem.secrets && e.name == f.name;
    }
  }
}
