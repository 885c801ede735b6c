# Verified models of the Local Agent X core

Dafny models of the parts of the agent whose mistakes cost the most: the gate that asks the
user before a call runs, the stores that must not lose data, the update that overwrites its own
install, and the text algorithms other code leans on. Each model follows one source file (or a
small group), branch by branch, and the lemmas beside it say what that code keeps over every
input and every run. `dafny verify dfyconfig.toml` checks everything.

How the files fit together:

| files | what they model |
|---|---|
| `ApprovalModel`, `ApprovalManager` | the approval manager, its one-shot grants and its durable record: each synchronous stretch as a function on values, and the classes with their fields, proved against those functions |
| `ApprovalProtocol`, `ApprovalEffects`, `ApprovalInvariants` | the same stretches as the steps of a transition system with a clock, crashes and an observer's history; what each step changes; what every run keeps |
| `ApprovalKeys` | which asks the gate's keys tell apart, and what an ask gets, on the fields of the asks |
| `ApprovalTheorems`, `ApprovalCoalescing`, `ApprovalWindows` | what the gate promises over whole runs |
| `ApprovalSources`, `ApprovalResume`, `ApprovalPersistence` | the acts of the user behind every yes; an op's ask after its await; how long a denial and an "always allow" last |
| `CodexConvert`, `CodexRepair`, `CodexOrder`, `CodexReader` | transcript conversion with orphan repair; completeness and losslessness; order; what the input says of the transcript, field by field |
| `EditDistance` | the two-row Levenshtein table against edit scripts |
| `Vault`, `VaultTheorems`, `VaultReboot`, `VaultFields` | the secrets vault, any sequence of boots under any keys, the save/load round trip, and what each operation leaves field by field |
| `TaskTrash`, `TrashTheorems`, `TrashRestore`, `TrashFields` | the task-scoped trash, its manifest, sweeps, restore as the inverse of move, and what each answers and leaves |
| `OtaTree`, `OtaUpdate` | the two walks over an extracted update, and the update transaction under faults and crashes |
| `StableJson`, `JsonMeaning`, `Grants`, `GrantFields` | canonical JSON text, what it means, the key a remembered approval is kept under, and what that key says of the call |
| `ScopeStack`, `ShellReports`, `GitInvocation` | the walk over a shell command's positions, what it reports of each publish, and git's own options |
| `CircuitBreaker`, `PluginLifecycle` | the two state machines |
| `SmartChunk`, `ChunkPacking` | message chunking; where lines are cut and how they are packed |
| `TelegramFormat`, `TelegramParking`, `TelegramRestore` | Telegram escaping; spans parked behind placeholders; putting them back by string replacement |
| `Sanitize`, `ExternalBlocks` | stripping to a fixpoint; re-closing blocks of untrusted text |
| `ConfigLoader` | protected-path matching and prompt sections |
| `Wrappers`, `Text` | shared datatypes and characters |

How to read the approval model. A run is a list of actions from `ApprovalProtocol.Action`; the
one `await` between an op-scoped ask's two stretches is a suspension, so any other action may
happen there. The `…Keys`, `…Fields`, `…Reader` and `…Reports` files state results on the fields of
the source's own data, through no function the model computes with. `Crash` wipes memory and keeps the durable columns. `History` is what an outside
observer has seen; no step reads it to decide anything.

Results that differ from what a comment or a natural reading promises:

- Two cards for one exact call can be up at once (`OpAsksBreakCoalescing`). A step puts up the second
  exactly when one is up and it resumes an op-scoped ask of the call that no recorded verdict answers,
  or asks for the call plainly and finds no grant, memory, suppression or coalescing slot
  (`SecondCardExactly`, `OneCardPerCall`); an op-scoped card that takes the slot over and is settled
  leaves an older one without it.
- Ending a session does not reach an op-scoped ask that is waiting at its `await`: its card goes
  up afterwards, however long the run goes on, exactly when no recorded verdict answers it
  (`SuspendedAskOutlivesItsSession`).
- Quarantined ciphertext is carried through a boot and a save exactly when no other entry of its
  name opens; an external file with a name twice loses one (`SaveKeepsUnopened`,
  `DuplicateNamesLoseCiphertext`).
- A destination approval whose write fails stands in memory (`FailedApprovalStands`).
- The destination seed stays pending only until the first save of any kind
  (`SeedIsPendingUntilFirstSave`).
- Trashed bytes can be orphaned. A manifest damaged in part is believed as it stands, so its scope
  stays recoverable exactly when every row is left or none is (`DamageDecides`, `DamageOrphans`). And a
  manifest that is not written after its file has moved leaves the file unlisted exactly when the old
  manifest is believed, a missing one included (`UnwrittenMoveOrphans`, `FirstMoveUnwritten`). These
  are the only steps that do it (`StepKeepsExactly`).
- A restore whose manifest write fails gives the file back and answers with an error (`UnwrittenRestore`).
- `stableJson` loses an own key named `__proto__`, so equality of texts is equality up to key order
  of what is left (`SameTextIffSameMeaning`, `ProtoKeyIsLost`).
- A half-open breaker admits every call until the next failure (`HalfOpenAdmitsAll`).
- One call's failures can be forgotten through another's: exactly when the map is over its limit and
  the entry long cold (`FailureForgetsExactlyTheCold`, `SweptAwayHappens`). Otherwise each call's
  decisions are those of its own events alone (`CallsAreIndependent`).
- Two overlapping first loads of one plugin id can leave a pin that is not the loaded manifest's,
  exactly when the second one fails to activate (`CommitKeepsUnless`, `OverlappingLoadsCanRepin`);
  and a restore is not told apart from one whose plugin was disabled and enabled again within its
  import (`DisableThenEnableIsNotSeen`), although one that was re-pinned is (`RepinnedIsNeverRestored`).
- A chunk exceeds the limit exactly when it is not the last and its piece leaves no room for its marker
  (`ChunkFitsIff`, `MarkedChunkExceeds`).
- Parked spans are put back by replacing the first string that reads like the placeholder, which the
  text before it can forge by borrowing a letter (`LookalikeBreaks`). It is the placeholder exactly when
  nothing before it reads like it (`ReplacesPlaceholderIff`), for one span exactly when the text before
  it does not (`OneSpanExactly`), and always when the text holds none of the placeholders' insides
  (`ConversionRestores`).
- Re-closing untrusted blocks changes a text with no unterminated block when the caveat is missing
  (`UnchangedExactly`), and is idempotent for ids that do not begin like a marker's end, as minted ones
  do not (`RepairIsIdempotent`, `IdempotenceNeedsPlainIds`).
- A tool call id survives encoding and decoding exactly when neither part holds a `|` and the item
  id is not blank (`DecodeInvertsEncode`).

## Model

| member | source | states |
|---|---|---|
| ApprovalTheorems.NoApprovalWithoutYes | src/approval-manager.ts:160-296 | over every run, each approved ask has exactly one of four sources: an unrevoked one-shot grant for its session, tool and own arguments, a remembered Approve of the same tool and scope in that session not cleared since, an Approve click on a card of the same session, tool and whole arguments, or a recorded durable yes to a card of the same op, tool and start of the arguments' text, applied in its window |
| ApprovalSources.NoApprovalWithoutAct | src/approval-manager.ts:160-296 | each of these goes back to an action of the run: the grant given, "always allow" or Approve clicked, or the op's surface saying yes, with no revocation, end of the session or crash in between where that would undo it |
| ApprovalSources.EverythingIsLogged | src/approval-manager.ts:101-124 | every ask, grant, revocation, settlement, teardown, turn, crash and recorded decision on record is the action of the run at its step |
| ApprovalTheorems.RidersAreTheSameCall | src/approval-manager.ts:205-206 | an ask that rides a card, or is told its outcome, has that card's session, tool and whole arguments |
| ApprovalKeys.ExactKeysAgree | src/approval-decision.ts:223-242 | two asks have one exact key exactly when session, tool and the whole arguments agree |
| ApprovalKeys.GrantKeysAgree | src/approval-call-grants.ts:17-22 | two one-shot grants have one key exactly when session, tool and the arguments without an underscore in front agree |
| ApprovalKeys.PreviewsAgree | src/approval-durable-record.ts:160-202 | two previews agree exactly when the arguments' texts agree in their first five hundred characters |
| ApprovalKeys.AskGets | src/approval-manager.ts:179-221 | the first stretch of an ask, on its fields: grant, else memory unless it must always be asked, else a mute less than a minute old, else the slot of exactly this call, else suspension or a card |
| ApprovalTheorems.AlwaysAskIsNeverRemembered | src/approval-manager.ts:181-188 | a call that must always be asked for is never approved from the session's memory |
| ApprovalTheorems.GrantsAreSpentOnce | src/approval-call-grants.ts:24-48 | no grant id is handed out twice, so one grant approves one ask |
| ApprovalTheorems.DeclinedMeansDenied | src/approval-manager.ts:109-122 | an answer "declined" always stems from a Deny click on a card of the same session, tool and whole arguments, still fresh where it mutes, or a recorded denial of it |
| ApprovalPersistence.DenialLasts | src/approval-manager.ts:190-204 | after Deny the same call asked again within a minute, with nothing in between that lifts the mute, is denied at once without a card, unless a grant or memory answers |
| ApprovalPersistence.AlwaysAllowLasts | src/approval-manager.ts:181-188 | after "always allow" every later ask of the session for the same tool and scope that may be remembered is approved, until the session ends or the process dies |
| ApprovalTheorems.SuppressionsHoldDenialsAndTimeouts | src/approval-manager.ts:196-204 | a suppression holds "declined" or "timeout", never "superseded", and traces to a Deny click or an expiry of that exact key |
| ApprovalTheorems.CardsSettleOnce | src/approval-manager.ts:234-289 | every card is pending, settled or lost in a crash; its promise resolves exactly once if it settled, as the way it ended says; a settled op-scoped card with a durable shadow has exactly one resolve event, with its op, tool, answer and reason |
| ApprovalTheorems.ClickDoes | src/approval-manager.ts:337-372 | a click settles its card, lifts or sets the mute of exactly its call, and is remembered for its session, tool and scope exactly when asked to and allowed |
| ApprovalTheorems.TimerDoes | src/approval-manager.ts:235-245 | a timer does nothing before the deadline, and from then on times its card out and mutes exactly its call |
| ApprovalTheorems.ReplyDoes | src/approval-manager.ts:308-325 | a reply supersedes exactly the session's cards and lifts exactly their calls' mutes |
| ApprovalCoalescing.OneCardPerCall | src/approval-manager.ts:205-206 | over every run a call has at most one pending card at all times exactly when no step puts up a second one in one of the two ways below |
| ApprovalCoalescing.SecondCardExactly | src/approval-manager.ts:205-247 | in a reachable state with at most one card of a call, a step leaves two exactly when one is up and it resumes an op-scoped ask of the call that no recorded verdict answers, or is a plain ask of it that no grant, memory, suppression or slot takes |
| ApprovalTheorems.PlainCallsHaveOneCard | src/approval-manager.ts:205-206 | a call no op ever asked for has at most one pending card |
| ApprovalTheorems.OpAsksBreakCoalescing | src/approval-manager.ts:286-289 | a concrete run with an op-scoped ask of the same call ends with two plain cards for it |
| ApprovalTheorems.EndSessionIsolates | src/approval-manager.ts:375-391 | ending a session removes its cards, suppressions and memory, denies each card as a timeout, and leaves every other session's as they were |
| ApprovalTheorems.SuspendedAskOutlivesItsSession | src/approval-manager.ts:219-231 | an ask waiting for the bridge is not torn down with its session: over any run that goes on without a crash, its card goes up when the bridge settles exactly when no recorded verdict answers it |
| ApprovalInvariants.InvariantOnRuns | src/approval-manager.ts:101-124 | every step of every run keeps the invariants the theorems rest on |
| ApprovalWindows.OneDeadlineAcrossCrashes | src/approval-durable-record.ts:160-202 | two cards of one op with no closing of its column between them show the same ask and expire at the same instant, whatever crashes lie between |
| ApprovalWindows.WindowsAreHonest | src/approval-manager.ts:232-264 | a card's window is its own or an earlier card's of the same op and ask, has time left when the card goes up, and its timer is set for exactly its end |
| ApprovalWindows.VerdictsApplyOnce | src/approval-durable-record.ts:204-213 | a recorded decision is applied to at most one ask, a repeat of its own card's within its window |
| ApprovalResume.ResumeGets | src/approval-manager.ts:221-289 | in every reachable state, what an op's ask comes back to: the recorded decision on a repeat of it, once; or its card, under the column's window for a repeat and its own otherwise, with its shadow, and the old record's end in the log as timed out or superseded |
| ApprovalManager.CallGrants.Grant | src/approval-call-grants.ts:29-33 | the call's key, without the dispatcher's arguments, now holds a fresh id |
| ApprovalManager.CallGrants.Take | src/approval-call-grants.ts:36-42 | the held id is handed over and the key is free |
| ApprovalManager.CallGrants.Revoke | src/approval-call-grants.ts:45-47 | no key holds the id, and every other key holds what it held |
| ApprovalManager.DurableRecord.EnsureBridge | src/approval-durable-record.ts:77-98 | a loaded bridge stays loaded; a failed load is tried again next time |
| ApprovalManager.DurableRecord.RecordRequest | src/approval-durable-record.ts:103-110 | the op's column holds the record and one request event is appended, or nothing without a bridge |
| ApprovalManager.DurableRecord.RecordResolve | src/approval-durable-record.ts:116-133 | the column is cleared if it is this card's, and one resolve event is appended |
| ApprovalManager.DurableRecord.Consume | src/approval-durable-record.ts:206-213 | the column is cleared if it is this card's, with no event |
| ApprovalManager.DurableRecord.ReconcileRecoveredAsk | src/approval-durable-record.ts:178-202 | what a column no live card owns means for this ask, and what becomes of it |
| ApprovalManager.ApprovalManager.GcSuppressedEntries | src/approval-manager.ts:139-143 | exactly the entries older than the suppression time are dropped |
| ApprovalManager.ApprovalManager.RegisterCard | src/approval-manager.ts:232-289 | the pending entry, its deadline, the durable shadow and the coalescing slot, as one step |
| ApprovalManager.ApprovalManager.RequestApprovalDetailed | src/approval-manager.ts:179-221 | the whole first stretch of an ask, in its order: grant, memory, suppression, coalescing, card or suspension |
| ApprovalManager.ApprovalManager.AfterBridge | src/approval-manager.ts:221-247 | the second stretch of an op-scoped ask: a recorded decision is the answer, else a card under the carried or a fresh window |
| ApprovalManager.ApprovalManager.Settle | src/approval-manager.ts:338-341 | one card leaves the pending map, its shadow is resolved and its promise settles |
| ApprovalManager.ApprovalManager.ResolveApproval | src/approval-manager.ts:337-372 | a click settles its card once, remembers only a rememberable Approve, and mutes exactly on Deny |
| ApprovalManager.ApprovalManager.OnTimer | src/approval-manager.ts:235-245 | a card expires at its deadline and not before, and mutes its call as a timeout |
| ApprovalManager.ApprovalManager.DenyPendingForSession | src/approval-manager.ts:308-325 | every card of the session, in any order, settles as superseded and its call is unmuted; the count is how many |
| ApprovalManager.ApprovalManager.ClearSessionDeclines | src/approval-manager.ts:329-334 | exactly the session's suppressions are dropped |
| ApprovalManager.ApprovalManager.ClearWholeSession | src/approval-manager.ts:375-391 | memory, suppressions and cards of the session are gone, each card denied as a timeout |
| ApprovalManager.ApprovalManager.OpResolveApproval | src/canonical-loop/control-api-approvals.ts:174-214 | the op's control surface settles the live card, else records the decision on the column it awaits, else refuses |
| ApprovalManager.ApprovalManager.ResolveExpired | src/canonical-loop/control-api-approvals.ts:124-160 | a column past its window that no live card owns is closed as a timeout, with its resolve event; one a live card owns is left alone |
| ApprovalManager.ApprovalManager.ReleaseSlot | src/approval-manager.ts:286-289 | a settled card's coalescing slot is freed once |
| CodexConvert.DecodeInvertsEncode | src/codex-message-convert.ts:33-42 | decoding recovers what was encoded exactly when neither part holds a bar and the item id is not blank |
| CodexConvert.CollectAnsweredCallIds | src/codex-message-convert.ts:89-97 | exactly the non-empty decoded ids some tool row carries |
| CodexConvert.ReleaseOwed | src/codex-message-convert.ts:112-118 | the owed placeholders due before a position are pushed in order and the rest are kept |
| CodexConvert.ReplayAssistant | src/codex-message-convert.ts:136-186 | an assistant row's reasoning, then all its calls, then its text; what it owes and where its calls sit |
| CodexConvert.ConvertRow | src/codex-message-convert.ts:119-196 | one row of the loop, whatever its role |
| CodexConvert.ConvertMessagesToInput | src/codex-message-convert.ts:99-199 | the loop produces the recursive repaired conversion |
| CodexReader.ConversionSays | src/codex-message-convert.ts:99-199 | for every transcript, the input without some placeholders, each for a call of it that no tool row answers, is its rows in order: user messages with their parts, reasoning with its fields, calls with name, arguments and the fields of their ids, texts, and each recorded output under its call |
| CodexReader.RowIsSaid | src/codex-message-convert.ts:121-195 | one row's items say what the row holds, field by field |
| CodexRepair.ConversionIsLossless | src/codex-message-convert.ts:71-80 | for every transcript, deleting the placeholders leaves exactly the row-by-row conversion, in order |
| CodexRepair.DroppingPlaceholdersRestoresRows | src/codex-message-convert.ts:84-97 | the same on the plain input of a well-formed transcript: drop the outputs of calls no tool row answers |
| CodexRepair.RepairCount | src/codex-message-convert.ts:166-195 | every id gets one output per tool row that answers it, and one per call when none ever does |
| CodexRepair.RepairFollows | src/codex-message-convert.ts:104-118 | each placeholder comes after its call; each recorded output does when tool rows answer earlier calls |
| CodexRepair.EveryCallIsAnsweredOnce | src/codex-message-convert.ts:99-199 | in a well-formed transcript every replayed call is followed by exactly one output with its id, and no output stands without a call |
| CodexOrder.RowKeepsItsOrder | src/codex-message-convert.ts:104-109 | at each assistant row: nothing is owed from before, its calls stand side by side, its outputs follow as one block, and the block is in call order when the recorded ones were |
| CodexOrder.BlockInOrder | src/codex-message-convert.ts:187-195 | outputs recorded in call order come out sorted by call position, placeholders included |
| CodexOrder.ReleaseSplit | src/codex-message-convert.ts:121 | a user or assistant row, and the end, release everything owed |
| EditDistance.Levenshtein | src/edit-distance.ts:10-21 | without a cap the distance; with one, over the cap exactly when the distance is, and exact when the lengths are within it |
| EditDistance.NextRow | src/edit-distance.ts:13-19 | one row of the table from the row before |
| EditDistance.DistanceIsOptimal | src/edit-distance.ts:1-7 | some script of that many edits turns the one string into the other, and none is shorter |
| EditDistance.DistanceIsSymmetric | src/edit-distance.ts:10-21 | the distance is the same both ways |
| EditDistance.ZeroOnlyOnEqual | src/edit-distance.ts:10-21 | zero exactly on equal strings |
| EditDistance.TriangleInequality | src/edit-distance.ts:10-21 | no detour is shorter |
| EditDistance.LengthGap | src/edit-distance.ts:11 | the distance is at least the difference of the lengths, which justifies the early bail |
| Vault.SecretsStore.constructor | src/secrets.ts:88-96 | a boot holds exactly what the file and the key make of each other |
| Vault.SecretsStore.LoadFile | src/secrets.ts:98-150 | missing, unparseable, newer and readable files each as the loader treats them |
| Vault.SecretsStore.DecryptFile | src/secrets-crypto.ts:102-126 | each entry opens or is quarantined on its own |
| Vault.SecretsStore.Save | src/secrets.ts:152-161 | a frozen store or a failed write leaves the file as it was |
| Vault.SecretsStore.SetSecret | src/secrets.ts:185-218 | the stored entry and what it keeps of the old one, and that memory follows the file |
| VaultFields.SetStores | src/secrets.ts:185-218 | on the stored entry: each detail given or else the old one; the origin given, else what a given URL other than the old one derives to, else the old one, else what the URL derives to; the approvals kept exactly when the origin is the same; other entries and quarantined names as they were; nothing at all when the file cannot be written |
| VaultFields.DeleteRemoves | src/secrets.ts:223-238 | exactly the live and quarantined entries of the name go, once the file is written |
| VaultFields.ApproveAdds | src/secrets.ts:289-299 | the destination is added behind the entry's approvals unless it is there, and nothing else of the entry changes but its time |
| VaultFields.RevokeDrops | src/secrets.ts:302-310 | exactly that destination's approvals go, and nothing happens when there is none |
| VaultFields.FileHolds | src/secrets-crypto.ts:70-90 | the file written holds each live entry with its details and its value sealed, each quarantined one verbatim whose name is not live, and nothing else |
| VaultFields.BootReads | src/secrets-crypto.ts:102-126 | a boot makes live what opens, with all it says, and quarantines the rest verbatim |
| Vault.SecretsStore.DeleteSecret | src/secrets.ts:223-238 | live and quarantined entries of the name go together, once the file is written |
| Vault.SecretsStore.ApproveDestination | src/secrets.ts:289-299 | a first approval is added in memory and then saved |
| Vault.SecretsStore.RevokeDestinationApproval | src/secrets.ts:302-310 | the destination's approvals are dropped in memory and then saved |
| Vault.SecretsStore.MarkDestinationSeedDone | src/secrets.ts:337-340 | the mark is cleared and saved |
| VaultTheorems.SecretsSurviveKeyChanges | src/secrets.ts:68-80 | a value written under a key is live with that value at every later boot under the key, and quarantined at every other, over any boots, crashes, failed writes and operations that do not set or delete its name |
| VaultTheorems.UnopenedCiphertextIsKept | src/secrets-crypto.ts:94-96 | an entry no boot of the run can open stays in the file verbatim |
| VaultTheorems.SaveKeepsUnopened | src/secrets-crypto.ts:70-90 | a boot and a save write back every entry the boot could not open exactly when the file has no openable entry under an unopenable one's name |
| VaultTheorems.DuplicateNamesLoseCiphertext | src/secrets-crypto.ts:88-89 | a file with one name under two keys, booted under the first and saved, has lost the second |
| VaultTheorems.FailedWriteChangesNothing | src/secrets.ts:207-210 | a set or delete that fails leaves memory and file unchanged |
| VaultTheorems.FailedApprovalStands | src/secrets.ts:293-297 | an approval whose write fails was not there before, is there in memory now, and is not in the file |
| VaultTheorems.NewerFileIsNeverRewritten | src/secrets.ts:114-121 | over any run a file from a newer build stays as it is |
| VaultTheorems.ApprovalsAreBoundToOrigin | src/secrets.ts:189-203 | no operation moves a secret to another origin and keeps an approval, and only approving adds one |
| VaultTheorems.SeedIsPendingUntilFirstSave | src/secrets.ts:332-340 | a boot has the seed pending exactly while nothing was saved since the version 1 file |
| VaultReboot.SaveThenLoad | src/secrets-crypto.ts:100-126 | decrypting the file just written gives back the live table and the quarantine |
| VaultReboot.MemoryMatchesDisk | src/secrets.ts:152-161 | from an empty directory or any file this build wrote, a reboot under the same key changes nothing, over every run whose in-place saves succeed |
| TaskTrash.Trash.FreeName | src/safe-delete.ts:222-224 | the first name not taken; the search ends because no two tries are alike |
| TaskTrash.Trash.MoveToTaskTrash | src/safe-delete.ts:212-241 | the file, its entry, the scope re-opened and the sweep that spares it; and when the manifest write fails or is torn, the file moved, the manifest left or spoilt, and no sweep |
| TaskTrash.Trash.FindLast | src/safe-delete.ts:257-266 | the most recent matching entry |
| TaskTrash.Trash.RestoreFromTaskTrash | src/safe-delete.ts:249-293 | each outcome under its condition, and no change unless it restores; a manifest write that fails after the file is back is answered as an error |
| TrashFields.RestoreDoes | src/safe-delete.ts:249-293 | on the entries read: the last one the reference means is answered for, as gone, lacking a destination, occupied or restored; a restored file has its bytes back and only it has moved, and only its entry leaves the manifest |
| TrashFields.MoveDoes | src/safe-delete.ts:212-236 | the bytes are in the scope under a name of their own, nothing else has moved, and the manifest gains the entry, or is left or torn as its write went |
| TrashFields.SweepDoes | src/safe-delete.ts:343-358 | exactly the scopes closed more than a day ago or untouched for more than thirty go, but the excluded one, with their files |
| TaskTrash.Trash.MarkTaskTrashScopeClosed | src/safe-delete.ts:300-312 | an existing scope is marked closed now |
| TaskTrash.Trash.Sweep | src/safe-delete.ts:343-358 | exactly the expired scopes but the excluded one are removed with their files |
| TaskTrash.StripUndoesStamp | src/safe-delete.ts:256 | stripping a trashed name gives back the file's own name |
| TaskTrash.NamesDiffer | src/safe-delete.ts:222-224 | no two names tried for one delete are alike |
| TrashTheorems.ManifestsMatchFiles | src/safe-delete.ts:162-201 | over every run, with manifests corrupted, damaged in part, torn or not written, a scope's manifest stays in bijection with its files or ready to be rebuilt from the listing exactly as long as no step is one of the breaking ones |
| TrashTheorems.StepKeepsExactly | src/safe-delete.ts:226-236 | from a scope in that state, a step leaves it so exactly unless it skips the write over a manifest that is believed after a move or a successful restore, or spoils some rows of a believed manifest and leaves others |
| TrashTheorems.ReadIsFaithfulIff | src/safe-delete.ts:162-186 | that state is exactly that what the read returns, rebuilt or not, lists each file of the scope once and nothing else |
| TrashTheorems.DamageDecides | src/safe-delete.ts:169-177 | after damage to some rows the scope is in that state exactly when every well-shaped row is left or none is |
| TrashTheorems.DamageOrphans | src/safe-delete.ts:169-177 | a file whose row is spoilt is on disk without an entry in a believed manifest exactly when some other row is left |
| TrashTheorems.OrphanIsNotFound | src/safe-delete.ts:257-266 | no reference restores such a file |
| TrashTheorems.UnwrittenMoveOrphans | src/safe-delete.ts:229-236 | a file whose move was not followed by the manifest's write is orphaned exactly when the manifest there is not one to be rebuilt |
| TrashTheorems.FirstMoveUnwritten | src/safe-delete.ts:184 | after a scope's first move with its manifest unwritten, every restore in it finds nothing while the file is there |
| TrashTheorems.UnwrittenRestore | src/safe-delete.ts:282-292 | a restore whose manifest write fails moves the same files and answers with an error |
| TrashTheorems.RecoveredIsFaithful | src/safe-delete.ts:188-201 | recovery lists each trashed file once and nothing else |
| TrashFields.RecoveredSays | src/safe-delete.ts:188-201 | a rebuilt manifest lists each file once, oldest first, under its time and without an original path |
| TrashTheorems.BytesAreConserved | src/safe-delete.ts:229-236 | over every run, failing manifest writes included, the contents of live files and trash together stay the same multiset, less what expired |
| TrashTheorems.NothingIsOverwritten | src/safe-delete.ts:277-279 | no operation writes over an existing file, live or trashed |
| TrashTheorems.ActiveScopeSurvives | src/safe-delete.ts:314-358 | a scope that received a file is not swept for 24 hours, nor for 30 days unless closed |
| TrashRestore.RestoreUndoesMove | src/safe-delete.ts:243-248 | delete and then restore by path puts the identical bytes back, whatever happened to other paths and whichever of their manifest writes were skipped, when nothing sits there by then |
| OtaTree.ListedIsWritten | src/ota-update.ts:304-346 | for every tree the backup list is exactly what the copy writes, in order |
| OtaTree.WrittenIsReached | src/ota-update.ts:304-326 | a path is written with a text exactly when following it through directories reaches a file with that text, with no node_modules on the way and not into the workspace at the top |
| OtaTree.CopyUpdates | src/ota-update.ts:304-326 | after the copy the install holds exactly those files of the update, and every other path is as it was |
| OtaTree.ListedIsUpdated | src/ota-update.ts:330-346 | the backup list names exactly the paths of those files |
| OtaTree.NeverWritten | src/ota-update.ts:304-326 | no dependency tree at any depth and no top-level workspace is ever written |
| OtaTree.UpdatePaths | src/ota-update.ts:330-346 | the walk collects that list |
| OtaUpdate.Updater.CopyDirectory | src/ota-update.ts:304-326 | writes what the tree holds and nothing else, also when it dies midway; run through from the top, every file meant for the install is there with its text and every other path is as it was |
| OtaUpdate.Updater.Begin | src/update-rollback.ts:126-172 | the transaction is active only once every overwritten file is backed up; a second one is refused |
| OtaUpdate.Updater.Read | src/update-rollback.ts:29-75 | the anchor is authoritative and the journal is brought in step |
| OtaUpdate.Updater.Persist | src/update-rollback.ts:299-313 | anchor before journal, so that a crash between leaves a readable pair |
| OtaUpdate.Updater.PutBack | src/update-rollback.ts:200-217 | interrupted anywhere, the install still rewinds to what it was; run through, it is that |
| OtaUpdate.Updater.Restore | src/update-rollback.ts:186-219 | whatever fails, what a restore would make of the disk is unchanged, and on success the install is it, for a verified transaction too; with a backup missing or damaged it is refused and nothing is put back |
| OtaUpdate.Updater.Clear | src/update-rollback.ts:354-366 | backup and journal go before the anchor |
| OtaUpdate.Updater.RecoverPendingUpdate | src/ota-update.ts:260-282 | on success nothing is pending, the install is what the disk stood for and the receipt names the previous commit |
| OtaUpdate.Updater.ApplyUpdate | src/ota-update.ts:147-254 | under any faults the disk stands for the install as it was; a failure with nothing pending before has put it back unless putting back failed too; a success has put every file of the update that is meant for the install there with its text and left every other path |
| OtaUpdate.Updater.ConfirmUpdate | src/ota-update.ts:256-258 | from here the install stands for itself |
| OtaUpdate.Updater.InterruptedUpdate | src/ota-update.ts:260-282 | an update interrupted anywhere before it is confirmed, then any number of interrupted recoveries, then one that finishes: the files are as before |
| OtaUpdate.RewoundIgnores | src/update-rollback.ts:201-217 | changes at the transaction's own paths do not change what it rewinds to |
| StableJson.RenderUnambiguous | src/approval-decision.ts:148-155 | a JSON text is read in one way: equal texts hold equal values, member order included |
| JsonMeaning.SameTextIffSameMeaning | src/approval-decision.ts:148-155 | two JSON values have one stable text exactly when they are equal up to key order at every depth |
| JsonMeaning.CanonKeepsMeaning | src/approval-decision.ts:150-154 | putting keys in order changes no value |
| JsonMeaning.AssignAllOrders | src/approval-decision.ts:151-153 | keys assigned in sorted order end in the object's own order, indices first, each once |
| JsonMeaning.ProtoKeyIsLost | src/approval-decision.ts:152 | an own key named __proto__ does not reach the text |
| Grants.CanonicalCommand | src/approval-decision.ts:141-146 | the token loop computes the command without its leading assignments |
| Grants.CanonicalIsIdempotent | src/approval-decision.ts:138-146 | naming a command twice names it once |
| Grants.SameCommandIffSameWords | src/approval-decision.ts:138-146 | two commands share a name exactly when they run the same words after their leading assignments |
| GrantFields.SameNameIffSameRun | src/approval-decision.ts:138-146 | on the texts: exactly when the words they spell are the same behind the leading ones of the form NAME=value |
| GrantFields.NoAssignmentKeepsAll | src/approval-decision.ts:141-146 | a command whose first word is no NAME=value keeps every word |
| Grants.BuildScope | src/approval-decision.ts:188-216 | the scope built and pruned in loops holds, at every key, what the declarations say |
| GrantFields.ScopeHolds | src/approval-decision.ts:188-219 | the scope at every name, told from the call: recipients as listed; of a send or workspace write only the action and declared names besides; the command as the words it runs; a path argument as its directories, each once and sorted; no underscore names; any other argument as it is |
| GrantFields.GrantIsBoundToArguments | src/approval-decision.ts:165 | calls that share a key agree on every argument that counts as it is |
| GrantFields.PayloadDoesNotCount | src/approval-decision.ts:166-168 | workspace writes that agree on the action and the declared names share a key, whatever they write |
| Grants.GrantCoversExactlyItsScope | src/approval-decision.ts:219-221 | two calls of a tool share a key exactly when their scopes agree at every key |
| Grants.GrantIsBoundToDirectories | src/approval-decision.ts:166-168 | calls that share a key name the same directories at every declared path argument |
| Grants.GrantIsBoundToCommand | src/approval-decision.ts:162 | calls that share a key run the same words after their leading assignments, where the command counts |
| Grants.GrantIsBoundToRecipients | src/approval-decision.ts:163-170 | calls that share a key reach the same recipients, and none that names its recipients shares one with a call that cannot |
| Grants.SameListingIffSameSet | src/approval-decision.ts:206 | sorted listings agree exactly when the sets do |
| ScopeStack.ShellPublishes | src/publish-operation.ts:153-212 | the loop with its stack computes the recursive walk |
| ShellReports.ReportsAreExact | src/publish-operation.ts:153-212 | every publish is reported once and in order: in the directory its bodies' cds before it and its own directory word lead to, uncertain exactly when one of those has no target or does not resolve, a push with the tool's names, those its bodies set before it and its own, each once |
| ShellReports.EarlierChangesReported | src/publish-operation.ts:183-199 | the report names the first earlier command that changed what it reads, exactly when there is one, and says when all commits before it are git commits |
| ScopeStack.Visit | src/publish-operation.ts:167-209 | one position: an environment statement, a directory change, a publish or a repository change |
| ScopeStack.WalkIsLexicalScoping | src/publish-operation.ts:155-158 | over a shell tree the walk finds what a recursive interpreter finds: same directories, uncertainty, variables and earlier changes |
| ScopeStack.BodyWalk | src/publish-operation.ts:163-167 | after a body the enclosing scopes are as they were |
| ScopeStack.ScopeIgnoresNested | src/publish-operation.ts:155-158 | a body's own scope depends on its own commands alone |
| ScopeStack.EarlierChangesAreExact | src/publish-operation.ts:159-204 | a publish reports the first earlier change it would read, at any depth, exactly when there is one, and working-tree commits exactly when every such commit is a git commit |
| GitInvocation.Invocation | src/publish-operation-table.ts:108-122 | the option loop computes the recursive reading |
| GitInvocation.ParseReadsSpelling | src/publish-operation-table.ts:100-122 | options written in any spelling are read back, up to exactly the subcommand |
| GitInvocation.ParsedWasSpelled | src/publish-operation-table.ts:100-122 | whatever is read was spelled there, no word is lost, and the first word left is no option |
| GitInvocation.LastDirectoryWins | src/publish-operation-table.ts:117 | the directory is the last `-C`'s value, if there is one |
| CircuitBreaker.Breaker.CheckCircuit | src/circuit-breaker.ts:86-108 | the decision and the move to half open |
| CircuitBreaker.Breaker.RecordCircuitSuccess | src/circuit-breaker.ts:111-113 | the call's entry is gone, the others stay |
| CircuitBreaker.Breaker.RecordCircuitFailure | src/circuit-breaker.ts:120-154 | sweep, count, and open at the threshold or from half open |
| CircuitBreaker.Breaker.SweepCold | src/circuit-breaker.ts:68-74 | over the size limit exactly the long-cold entries go |
| CircuitBreaker.Breaker.ResetCircuit | src/circuit-breaker.ts:162-167 | exactly the session's entries of the tool go |
| CircuitBreaker.MapIsTwoNumbers | src/circuit-breaker.ts:16-21 | after any events the map holds exactly the calls with failures, and each entry's state follows from their count and the last one's time |
| CircuitBreaker.DecisionIsTwoNumbers | src/circuit-breaker.ts:86-108 | the whole decision of a check, from those two numbers |
| CircuitBreaker.FailureCounts | src/circuit-breaker.ts:120-154 | what one failure makes of an entry |
| CircuitBreaker.SameKeyIffSameCall | src/circuit-breaker.ts:53-56 | two calls are one exactly when tool, session and signature agree, a missing session standing for "default" |
| CircuitBreaker.RefusedExactlyWhen | src/circuit-breaker.ts:86-108 | a call is refused exactly when its failures since it was last forgotten reach the threshold and the last is less than the cooldown ago |
| CircuitBreaker.SweepChangesNoDecision | src/circuit-breaker.ts:67-74 | a sweep changes no decision that could be taken then |
| CircuitBreaker.CallsAreIndependent | src/circuit-breaker.ts:8-14 | over any run, a call's failure count is that of its own events alone exactly when no sweep took its entry since its last success or reset, and then every check of it answers as if no other call had been made; it is never refused when its own events alone would let it through |
| CircuitBreaker.FailureForgetsExactlyTheCold | src/circuit-breaker.ts:67-74 | a failure of one call changes another's count exactly when the map is over its limit and the other's entry is long cold, and then to zero |
| CircuitBreaker.FewCallsAreNeverSwept | src/circuit-breaker.ts:67-69 | while no more calls than the limit have ever failed, nothing is swept away |
| CircuitBreaker.SweptAwayHappens | src/circuit-breaker.ts:67-74 | a run of over a thousand failing calls after which one is let through that its own events would refuse |
| CircuitBreaker.OthersChangeNoDecisionNow | src/circuit-breaker.ts:8-14 | an event about one call leaves every other call's decision at that time as it was |
| CircuitBreaker.HalfOpenAdmitsAll | src/circuit-breaker.ts:91-107 | a call that is let through is let through at every later check over any run until it next fails |
| PluginLifecycle.PluginManager.ReadRegistry | src/plugin-system.ts:40-52 | invalid contents unload everything, an unreachable store changes nothing |
| PluginLifecycle.PluginManager.BeginLoad | src/plugin-system.ts:104-150 | the checks before the import, in order |
| PluginLifecycle.PluginManager.FinishLoad | src/plugin-system.ts:171-205 | checked again after the import; written, then activated |
| PluginLifecycle.PluginManager.DisablePlugin | src/plugin-system.ts:221-237 | the loaded manifest's pin is written with the disabling, and only then is the plugin dropped |
| PluginLifecycle.PluginManager.ExpectEnable | src/plugin-system.ts:344-353 | what an enable requires and will expect to find again |
| PluginLifecycle.LoadedStaysEnabled | src/plugin-system.ts:166-205 | over every interleaving each loaded plugin is enabled under a matching pin, unless a commit re-pins under a loaded one |
| PluginLifecycle.CommitKeepsUnless | src/plugin-system.ts:171-201 | a commit keeps that invariant exactly when it is not that one case |
| PluginLifecycle.OverlappingLoadsCanRepin | src/plugin-system.ts:171-201 | a run of two overlapping loads that breaks it |
| PluginLifecycle.RestoreActivatesExactlyWhen | src/plugin-system.ts:180-198 | from its start over any run within its import to its commit, a restore activates exactly when import, read and activation succeed and the plugin is then enabled under the path and hashes read at the start; otherwise only invalid contents change what is loaded |
| PluginLifecycle.RepinnedIsNeverRestored | src/plugin-system.ts:183-198 | once path or hashes differ from what a load in flight expects, no finish of it activates anything over any run until a fresh load or a disable writes just those pins back |
| PluginLifecycle.MismatchStays | src/plugin-system.ts:171-201 | one action makes differing pins agree again exactly when it is one of those |
| PluginLifecycle.DisabledIsNeverRestored | src/plugin-system.ts:192-197 | once disabled a plugin stays off, whatever restores were in flight, until a load or an enable of it commits |
| PluginLifecycle.DisableThenEnableIsNotSeen | src/plugin-system.ts:183-197 | a run from an empty registry: loaded, restarted, disabled and enabled again within the restore's import with the enable failing at its activation, the restore goes through |
| PluginLifecycle.FailedDisableChangesNothing | src/plugin-system.ts:53-56 | a disable whose read or write fails disables nothing |
| PluginLifecycle.FailedCommitChangesNothing | src/plugin-system.ts:206-217 | so for a commit |
| PluginLifecycle.LoadBeginsExactly | src/plugin-system.ts:104-150 | a load reaches its import exactly when registry and checks are well, the plugin is not loaded and is the one expected, its manifest is the pinned one if any is, and an expected bundle is pinned |
| PluginLifecycle.TamperedManifestNeverLoads | src/plugin-system.ts:113-117 | a manifest other than the registered one never reaches its import |
| PluginLifecycle.FreshLoadPins | src/plugin-system.ts:171-179 | a first load is registered as enabled under its own path and hashes, then loaded; a failure changes nothing |
| PluginLifecycle.EnableGoesThroughExactly | src/plugin-system.ts:180-192 | an enable goes through exactly when the plugin is still disabled under what it read, and changes only that |
| PluginLifecycle.DisablePins | src/plugin-system.ts:221-237 | a disable keeps path and entry hash, pins the loaded manifest and touches nothing else |
| PluginLifecycle.OnlyTheDisabledManifestIsEnabled | src/plugin-system.ts:221-229 | an enable after it lets in only the manifest that was loaded |
| SmartChunk.Pieces | src/channel-formatter.ts:308-338 | the loop ends with the recursive cutting; its pieces lie in the text one after the other with only white space between, none over the limit, and no line is cut when every line is within it |
| SmartChunk.SplitLine | src/channel-formatter.ts:320-333 | an overlong line is cut at word boundaries until the rest fits, and only white space is dropped |
| ChunkPacking.CutIsCutUp | src/channel-formatter.ts:322-331 | a line over the limit is cut at its last blank within the limit if that lies past the middle, else at the limit, and again behind the white space there until the rest fits |
| ChunkPacking.LineIsAdded | src/channel-formatter.ts:313-335 | what one line does to the pieces and the text held back |
| ChunkPacking.LinesArePacked | src/channel-formatter.ts:313-338 | lines within the limit are packed greedily: groups in order, none of several lines over the limit, each but the last over it with its next line |
| SmartChunk.SplitConservesInk | src/channel-formatter.ts:304-307 | they hold exactly the text's non-white characters, in order |
| SmartChunk.Chunk | src/channel-formatter.ts:308-348 | the chunks are those pieces, each but the last with its marker, and hold the text's non-white characters |
| SmartChunk.ChunkFitsIff | src/channel-formatter.ts:338-345 | for every text, a chunk is within the limit exactly when it is the last or its piece and its marker together are |
| SmartChunk.ShortTextIsOneChunk | src/channel-formatter.ts:308-338 | a text below the limit, or one line up to it, comes out as one chunk, trimmed at its end |
| SmartChunk.MarkedChunkExceeds | src/channel-formatter.ts:341-345 | two lines that fill the limit come out as themselves, the first over the limit by its marker |
| TelegramFormat.TwoPassesAreOne | src/channel-formatter.ts:196-198 | the two passes are one map over the characters |
| TelegramFormat.EscapeIsInvertible | src/channel-formatter.ts:193-198 | every input is recovered from its escaped form |
| TelegramFormat.EscapeLeavesNothingBare | src/channel-formatter.ts:193-198 | no special character and no backslash is left bare |
| TelegramFormat.EscapesExactly | src/channel-formatter.ts:193-198 | exactly the listed characters get a backslash |
| TelegramParking.ParkKeepsEachOnce | src/channel-formatter.ts:208-216 | parking keeps every placeholder in exactly one place and each payload to earlier ones |
| TelegramParking.ParkingOnStrings | src/channel-formatter.ts:208-216 | on the strings the program holds, a parking writes the placeholder's string and the payload made from the matched strings |
| TelegramParking.PayloadHoldsItsSpan | src/channel-formatter.ts:212-216 | unescaping what stands between a payload's marks gives back the span's text, a link's name and its address |
| TelegramParking.EscapeLeavesPlaceholders | src/channel-formatter.ts:218-219 | escaping the string leaves every placeholder in it alone |
| TelegramParking.ParkingIsRestorable | src/channel-formatter.ts:203-219 | any series of parkings and the escape after it hold each placeholder once |
| TelegramRestore.Restore | src/channel-formatter.ts:221-226 | the loop computes the descending replacement of first matching strings |
| TelegramRestore.ReplacesPlaceholderIff | src/channel-formatter.ts:221-226 | replacing the first matching string replaces the placeholder exactly when nothing before it, or borrowing an X from a neighbour, reads like it |
| TelegramRestore.ConversionRestores | src/channel-formatter.ts:200-226 | for every text that holds no placeholder's inside and every series of parkings, the restored string is the text with every payload expanded in its place and no placeholder left |
| TelegramRestore.OneSpanExactly | src/channel-formatter.ts:221-226 | a single span comes back where it stood exactly when the text before it, with one X behind, does not hold its placeholder's string |
| TelegramRestore.LookalikeBreaks | src/channel-formatter.ts:211-226 | a text without any placeholder's string that restores to the wrong place and leaves part of a placeholder |
| Sanitize.StripToFixpoint | src/sanitize.ts:67-78 | the loop ends, with the fixpoint |
| Sanitize.StripIsFixpoint | src/sanitize.ts:60-66 | the result matches no pattern, a second strip changes nothing, and only a text that matches is changed |
| Sanitize.PassChangesExactlyWhenMatched | src/sanitize.ts:60-66 | a pass changes a text exactly when some pattern matches, and then it has fewer angle brackets |
| Sanitize.ReplaceKeepsTheRest | src/sanitize.ts:60-78 | a replacement keeps every character outside its leftmost matches, in order, and puts its text where each match was |
| Sanitize.PassKeepsTheRest | src/sanitize.ts:67-78 | a pass does so with each pattern in turn |
| Sanitize.StripHtmlComments | src/sanitize.ts:35-43 | no opening marker is left with a closing one behind it |
| ExternalBlocks.CloseUnterminatedExternalBlocks | src/sanitize.ts:334-355 | the loop computes the repaired text |
| ExternalBlocks.EveryBlockIsClosed | src/sanitize.ts:325-333 | every opening marker has its closing one, the caveat stands whenever there is one, and the text itself is untouched |
| ExternalBlocks.RepairAdds | src/sanitize.ts:334-355 | what is added is the closing markers that were missing, each once, and the caveat when any was or it was missing |
| ExternalBlocks.OpensExactly | src/external-content-markers.ts:22-24 | an opening marker is read exactly where the tag, a non-blank id without quotes and the end stand |
| ExternalBlocks.UnchangedExactly | src/sanitize.ts:331-348 | a text comes out unchanged exactly when no block is opened in it, or every one is closed and the caveat stands |
| ExternalBlocks.RepairIsIdempotent | src/sanitize.ts:331 | a second time changes nothing when no id begins like a marker's end |
| ExternalBlocks.IdempotenceNeedsPlainIds | src/external-content-markers.ts:22-24 | a text with such an id that a second time changes again |
| ConfigLoader.MatchingIsBySegments | src/config-loader.ts:167-185 | a path matches an entry exactly when the entry's parts stand side by side among its own, at the end for a file, anywhere for a directory |
| ConfigLoader.SplitSections | src/config-loader.ts:66-77 | the parts, joined, are the prompt |
| ConfigLoader.StartsAreHeadings | src/config-loader.ts:66-77 | every heading opens a part of its own: the parts start exactly at the text's start and its headings, and the n-th part runs from the n-th start to the next |
| ConfigLoader.PartsAreHeaded | src/config-loader.ts:66-77 | told from the text: parts start at its start and at each line of two hashes and a blank, and run to the next |
| ConfigLoader.SectionIds | src/config-loader.ts:132-145 | each part gets the first free id of its slug |
| ConfigLoader.SectionIdsAreDistinct | src/config-loader.ts:126-131 | no two sections share an id |

## Left out

Assumptions shared by all models:

- Time: one clock reading for each synchronous step; a crash strictly advances the clock, so ids made of a counter and a time are unique.
- Keys and session ids are structured values, so a session id with `::` in it cannot blur two keys.
- Strings are sequences of characters; UTF-16 pairs, lone surrogates and sorting by code unit outside the basic plane are not modelled.
- Hashes are injective and stand for what they hash; the cipher opens a text under the key that sealed it and no other.

Approval gate:

- Durable writes succeed once the bridge is loaded, and every op exists; warnings, UI events, previews and the wait accounting are not modelled.
- ApprovalWindows.OneDeadlineAcrossCrashes: assumes an op runs one tool call at a time, as the durable record's own comment does.
- ApprovalTheorems.PlainCallsHaveOneCard: holds for calls no op ever asked for; ApprovalCoalescing.SecondCardExactly has the exact condition for all calls.
- ApprovalManager.ApprovalManager.ResolveExpired: leaves a column alone whose card is live, which the source would close; that its callers never run it for such an op is an assumption, and "exactly one resolve event" in ApprovalTheorems.CardsSettleOnce rests on it.
- Arguments are a name-to-text map and a preview is the first 500 characters of the text; arguments that cannot be serialised are not modelled.
- An ask that rides another's card is told that card's outcome, its grant id included.

Transcripts and edit distance:

- A tool row without a call id is a row with an empty one; parseReasoningItem is not part of this model.
- EditDistance.Levenshtein: caps are integers or absent.

Vault:

- destroy, the keychain fallback chain, placeholder resolution, the redaction registry and the destination ladder; a file that parses to something without entries stops the boot and is not modelled.
- VaultTheorems.SecretsSurviveKeyChanges: names the value only, because its metadata may be changed by approvals.

Task trash:

- The OS trash, the day folders, the journal and copies that fail half-way; live files are a flat map, so a directory is one file with its tree as content.
- TaskTrash.Trash.MoveToTaskTrash: a process that dies between a completed manifest write and the sweep after it, and one that dies before the file has moved, are not separate outcomes.
- Scope directories are keyed by the sanitised session id.

Update:

- Link and identity checks of the rollback paths, superseded archives, the order of the sorted paths, file modes and times; a legacy journal that does not validate.
- The history file is a step that may fail; its contents are not modelled.

Remembered grants:

- The tool table behind declared paths, shell commands and recipients enters as parameters; use_secret and whole-tool grants have no scope.
- toJSON methods, undefined members and non-finite numbers, which are not JSON values.

Publishes:

- The shell lexer, the argv matchers and the package-runner unwrapping enter as what they say of each command.
- ScopeStack.ShellPublishes: for positions that enter bodies one level at a time, as the lexer lists them.

State machines:

- The breaker's settings are fixed over a run; argument signatures enter as given.
- Entry hashes and publisher signatures are part of the checks a load passes or fails before its import.
- Plugin secrets, restore errors, the tool surface and the last registry kept for listings; the registry changes only through the manager.

Text:

- The tag patterns enter as match functions whose matches begin with an angle bracket; homoglyphs and the pattern catalogues are not modelled.
- TelegramRestore.ConversionRestores: which spans the markdown patterns choose is left open, and so is maskCode, whose output is the text here; its condition is sufficient, and TelegramRestore.ReplacesPlaceholderIff is exact for each replacement.
- ExternalBlocks.RepairIsIdempotent: the second half is one way; an id that begins like a marker's end matters only where a marker is cut off before it.
- SmartChunk.Pieces: for a limit of at least one, since the split loop does not end at zero.
- ConfigLoader.MatchingIsBySegments: starts from the entry with its slashes already normalised.
- Configuration watching, caches, logging, HTTP and the other input and output around these files.
