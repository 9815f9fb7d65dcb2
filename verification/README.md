# A verified model of the RF Cloner bridge

RF Cloner is an ESPHome component that learns 433 MHz remote commands from the air and keeps them in
flash, and a Home Assistant integration that mirrors, organises and restores them. This project models
the parts whose correctness spans many functions, in Dafny, and proves what they promise.

| file | what it models |
|---|---|
| `Bytes.dfy`, `Checksum.dfy`, `Layout.dfy` | machine integers, the CRC as polynomial division, the byte image of the records |
| `RegistryModel.dfy`, `Refinement.dfy` | the slot array and what each operation decides; the finite map it implements |
| `Budget.dfy` | the storage budget on the records themselves, and exactly when a put succeeds |
| `Flash.dfy`, `Recovery.dfy`, `BootContents.dfy` | ordered saves, power cuts, the boot; atomicity, round trip, damage; what a boot makes of any contents |
| `CommandStore.dfy` | the store as a class, fields updated in place with manual rollback, over a storage backend that may refuse any save |
| `Runs.dfy`, `Durable.dfy` | whole runs of operations, refused saves, power cuts and reboots; what they keep between RAM and flash |
| `Bridge.dfy`, `Restore.dfy`, `Interrupted.dfy` | identities and status reads, the restore protocol, the restore through power cuts |
| `Replica.dfy` | the replica under every interleaving |
| `Refreshing.dfy`, `Replacement.dfy` | one refresh call by call, refreshes in a read-only session; restoring the replica itself |
| `Targets.dfy`, `Reconcile.dfy` | the organisation kept in the entry's options, pruning, and the reconciler |
| `Capture.dfy`, `Learner.dfy`, `NoiseGate.dfy`, `GapSource.dfy` | frame judging, the learn state machine, the noise gate, the gap's origin |
| `Capturing.dfy`, `Outcomes.dfy` | what makes a learn succeed; how one that does not ends |

Flash is a map from keys to byte strings. An operation is a decision on the registry (`Plan`) followed by
an ordered list of saves; `landed` says how many of them reach flash. A save that is refused rolls RAM back
and the device goes on; a power cut reboots from what landed. The class methods are proved equal to these
functions, and everything else is proved about the functions.

Time, the microsecond clock, the identity a fresh device draws, and how many saves land are parameters.
Configuration bounds are preconditions (`Config`, `TunedConfig`), as the schema enforces them.

## Where the code does less than its words

Each of these is a lemma below, with the exact condition or a concrete input.

- A relearn writes the new waveform over the old one before the index. Cut between the two, it is neither
  old nor new (`Recovery.RelearnConfined`), and the change token does not move
  (`Replica.TornRelearnKeepsTheToken`).
- The index save is the commit point only while `max_commands` is what the stored header says
  (`Recovery.HeaderCutNeedsSameSlotCount`).
- The restore check admits a snapshot at the revision ceiling, which the commit then refuses, so the restore
  is left open: what the check's comment sets out to prevent (`Restore.CeilingRevisionLeavesRestoreOpen`).
- A restore of an empty snapshot can be ignored without raising (`Restore.QuietRestoreIsExactIff`,
  `Restore.EmptyRestoreMayBeIgnored`).
- The restore check sees RAM alone. After a begin call refused part way flash can be open while RAM is not, and
  a restore that loses power then raises nothing and ends with the wrong id counter
  (`Interrupted.LeftoverBeginFoolsTheRestore`); a target that has booted since is safe
  (`Interrupted.RestoreSurvivesPowerCuts`, `Interrupted.BootedTargetIsFresh`).
- Closing a restore can make the change token repeat: exactly when a copy of the adopted identity carries the
  revision it is closed under (`Replica.ClosingRepeatsTheTokenIff`). Clearing an open restore does it
  (`Replica.AbandonedRestoreFoolsTheToken`), and so does the documented commit with source revision 0
  (`Replica.CommitWithoutSourceFoolsTheToken`).
- A refresh does not ask whether the session is read-only. Begun after a torn relearn, it stores the shortened
  listing over a replica that still held the lost command
  (`Refreshing.RefreshAfterTornRelearnDropsTheCommand`).
- One change of two adjacent bytes escapes the CRC of every record, across its seam
  (`Layout.SeamSeesAllButOne`). In the header it is harmless; in the index it costs at most the command in the
  last slot, which is reported (`Recovery.HeaderDamageDetected`, `Recovery.IndexDamageDetected`).
- The gap estimate is documented as off by at most one loop period over the interval count. Truncation adds
  up to a microsecond: at any loop period the documented bound holds for every train of arrivals exactly when
  the count divides the span (`Capture.TickOverNNeedsExactDivision`).
- A lone frame that replaces the candidate keeps the gaps measured on the old one
  (`GapSource.GapOfAnotherWaveform`).
- Arming forgets candidate, gaps and agreements but not the span of arrivals. When the median of a window's
  spaces is implausible, the stored gap is estimated from the arrivals of the learn before
  (`Capturing.ArmAndHear`, through `GapFrom` and `Fallback`).

## Model

| member | source | states |
|---|---|---|
| `RegistryModel.First` | components/rf_cloner/command_store.cpp:377-405 | slot searches return the first match, or nothing exactly when no slot matches; free slots never match an id or a name |
| `RegistryModel.PlanKeepsSound` | components/rf_cloner/command_store.cpp:435-796 | every operation, whether its saves land or one is refused, keeps the registry sound: unique valid ids and names, ids below the counter, waveforms of 1..max_pulses, budget, revision in 1..REVISION_MAX; and every failure but that of factory_reset rolls RAM back exactly |
| `Refinement.OperationsRefine` | components/rf_cloner/command_store.cpp:435-796 | every operation on the slot array returns the result code of, and means the same as, the operation on a finite map from id to command, for all inputs including every refusal |
| `Refinement.PutRefines` | components/rf_cloner/command_store.cpp:435-499 | put on slots is put on the map: order of refusals, relearn keeps the id, budget of the map with the new waveform in place of the old |
| `Refinement.RenameRefines` | components/rf_cloner/command_store.cpp:523-560 | rename keeps id and waveform, is a no-op on the same name, refuses a taken one |
| `Refinement.RenamingToItselfKeeps` | components/rf_cloner/command_store.cpp:523-542 | renaming a command to its own name is acknowledged without a write |
| `Refinement.ClearingNothingKeeps` | components/rf_cloner/command_store.cpp:607-643 | a clear is acknowledged without a write exactly when nothing is held and no restore is open |
| `Refinement.RemoveRefines` | components/rf_cloner/command_store.cpp:574-605 | remove drops exactly one id from the map |
| `Refinement.ImportRefines` | components/rf_cloner/command_store.cpp:705-755 | import accepts exactly unused ids below the counter and unused valid names that fit |
| `Refinement.CommandsMeasure` | components/rf_cloner/command_store.cpp:407-433 | used slots and payload bytes of the array are the size and byte total of the map |
| `Refinement.SearchByName` | components/rf_cloner/command_store.cpp:377-384 | a name is found exactly when some command of the map bears it, and gives that command's id |
| `Refinement.SearchById` | components/rf_cloner/command_store.cpp:386-396 | an id is found exactly when the map holds it, and gives that command |
| `Budget.FlashWithinBudget` | components/rf_cloner/command_store.cpp:197-199 | header, index and waveform records of a stored registry together never exceed the configured bytes |
| `Budget.WritesStayWithinBudget` | components/rf_cloner/command_store.cpp:435-796 | every acknowledged operation leaves the records of the registry within the budget |
| `Budget.PutBudgetIsExact` | components/rf_cloner/command_store.cpp:422-472 | a put nothing else speaks against is refused for its size exactly when the records it would leave, the replaced waveform gone, exceed the configured bytes |
| `Budget.ImportBudgetIsExact` | components/rf_cloner/command_store.cpp:705-755 | the same for an import, which always takes a free slot |
| `Budget.PutSucceedsExactly` | components/rf_cloner/command_store.cpp:435-499 | on storage that works a put succeeds exactly when the session is writable with no restore open, the name is 1 to 23 of the 65 allowed characters, the length fits, there is a slot and an id, the records fit and the revision is below 0x7FFFFFFE; then one slot, the counter and the revision change as stated and nothing else |
| `Budget.NamesAccepted` | components/rf_cloner/command_store.cpp:175-191 | names are accepted exactly when they are 1 to 23 characters of letters, digits, underscore, dash and dot |
| `Bytes.LittleEndian` | components/rf_cloner/command_store.cpp:829-876 | two- and four-byte fields lie least significant byte first |
| `Bytes.TimingAt` | components/rf_cloner/command_store.cpp:829-833 | each duration of a waveform record lies at four times its place, as its two's complement |
| `Bytes.LeRoundTrip` | components/rf_cloner/command_store.cpp:300-330 | little-endian fields decode to what was encoded, at any width that holds them |
| `Bytes.TimingsRoundTrip` | components/rf_cloner/command_store.cpp:829-833 | a waveform's bytes decode to the waveform |
| `Bytes.TimingBytesInjective` | components/rf_cloner/command_store.cpp:829-833 | no two waveforms share a byte image |
| `Layout.NameRoundTrip` | components/rf_cloner/command_store.cpp:835-876 | a valid name survives its NUL-padded 24-byte field |
| `Layout.SlotRoundTrip` | components/rf_cloner/command_store.cpp:835-876 | a stored slot parses back to its id, name, length, gap, repeats, frequency, modulation and waveform CRC |
| `Layout.RowsRoundTrip` | components/rf_cloner/command_store.cpp:300-368 | every row of a written index reads back as the slot it was written from |
| `Layout.MetaRoundTrip` | components/rf_cloner/command_store.cpp:322-330 | identity, counter, revision and restore flag read back from a written index |
| `Layout.HeaderRoundTrip` | components/rf_cloner/command_store.cpp:254-298 | a written header parses to the magic, version, slot count and index length the boot requires |
| `Layout.SealedIsIntact` | components/rf_cloner/command_store.cpp:281-286 | every record written carries a CRC that checks |
| `Layout.SealSeesAllButOne` | components/rf_cloner/command_store.cpp:281-286 | change one byte or two adjacent bytes anywhere in a sealed record, body, checksum or across both: the checksum still holds exactly when the change is one single pattern |
| `Layout.SeamSeesAllButOne` | components/rf_cloner/command_store.cpp:868-875 | across the seam, changing the last body byte by e and the low checksum byte by f goes unseen exactly for (0, 0) and for (0x89, 0xA1), in every record |
| `Layout.SealSpells` | components/rf_cloner/command_store.cpp:868-875 | two checksum bytes match a register exactly when they are its halves, low byte first |
| `Checksum.Crc16Ccitt` | components/rf_cloner/command_store.cpp:81-90 | the firmware's bit loop computes the CRC function |
| `Checksum.ShiftBitsLinear` | components/rf_cloner/command_store.cpp:81-90 | division by the generator x^16+x^12+x^5+1 is linear over exclusive or |
| `Checksum.ShiftBitsInjective` | components/rf_cloner/command_store.cpp:81-90 | no shift of the register loses information |
| `Checksum.FeedTwo` | components/rf_cloner/command_store.cpp:81-90 | two bytes fed in turn are one 16-bit word divided at once |
| `Checksum.BurstDetected` | components/rf_cloner/command_store.cpp:81-97 | any change confined to one byte or two adjacent bytes, anywhere in a record of any length, changes the checksum |
| `Checksum.EveryRecordCollides` | components/rf_cloner/command_store.cpp:81-90 | every record of four bytes or more has another of its length with the same checksum: a change of one word is undone by a change of the next |
| `Checksum.ChecksumOfNothing` | components/rf_cloner/command_store.cpp:81-83 | the register starts as 0xFFFF |
| `BootContents.HeaderFormat` | components/rf_cloner/command_store.cpp:868-875 | the ten header bytes: "FR", version 1, the slot count, the index length, two zeros, the checksum |
| `BootContents.RowFormat` | components/rf_cloner/command_store.cpp:846-862 | every field of an index row at its offset |
| `BootContents.HeaderVerdicts` | components/rf_cloner/command_store.cpp:254-320 | for any ten header bytes and any index record: exactly which are a header fault, a version fault, an index fault or read, and each fault is read-only and leaves RAM as it was |
| `BootContents.RowVerdicts` | components/rf_cloner/command_store.cpp:331-374 | for any row and any waveform record: exactly when the slot is free, left out for the limits, loaded with a given waveform, or damaged |
| `BootContents.WhatIsFoundIsUsable` | components/rf_cloner/command_store.cpp:331-374 | whatever flash holds, every command a boot finds has an id, a name that fits its field and a waveform of an allowed length that is the one on flash |
| `Recovery.RoundTrip` | components/rf_cloner/command_store.cpp:829-876 | for every sound registry, booting over what was written under the same limits gives back the identical registry, with a clean report, writing nothing |
| `Recovery.CrashAtomicity` | components/rf_cloner/command_store.cpp:490-497 | power cut after any number of saves of any write but a relearn: the next boot is clean and finds exactly the old or exactly the new registry, decided by the index save alone |
| `Recovery.CutRecordsAre` | components/rf_cloner/command_store.cpp:829-876 | what flash holds after each prefix of a write's saves: waveform, then index, then header |
| `Recovery.CommittedInStep` | components/rf_cloner/command_store.cpp:868-875 | once the index has landed flash describes the new registry, because the header bytes depend on the slot count alone |
| `Recovery.UncommittedInStep` | components/rf_cloner/command_store.cpp:490-497 | until the index lands, a write to a free slot leaves flash describing the old registry |
| `Recovery.RelearnConfined` | components/rf_cloner/command_store.cpp:451-497 | a relearn cut before its saves or after its index is atomic; cut between the two, exactly that slot is reported lost and every other command loads, unless the two waveforms collide in length and CRC, when the old row adopts the new waveform |
| `Recovery.HeaderCutNeedsSameSlotCount` | components/rf_cloner/command_store.cpp:868-875 | cut between index and header: the boot is clean and new exactly when max_commands is what the stored header says, else read-only with no command visible |
| `Recovery.HeaderDamageDetected` | components/rf_cloner/command_store.cpp:281-286 | one byte or two adjacent bytes of the header changed: read-only with the header fault, nothing loaded or written; the one pattern the checksum does not see falls on reserved bytes and leaves the boot exactly as it was |
| `Recovery.IndexDamageDetected` | components/rf_cloner/command_store.cpp:315-320 | one byte or two adjacent bytes of the index changed: read-only with the index fault, nothing loaded or written; the one pattern the checksum does not see falls on the waveform checksum of the last slot, so a command there is reported lost and nothing else, and a free slot hides it |
| `Recovery.WaveformDamageDetected` | components/rf_cloner/command_store.cpp:345-374 | a damaged waveform costs exactly its own command: read-only, that slot named, every other command loaded, flash untouched |
| `Recovery.EveryWaveformCollides` | components/rf_cloner/command_store.cpp:92-97 | every waveform has another of its length with the same stored checksum, so the collision case is never empty |
| `Recovery.OtherLimitsLoseNothing` | components/rf_cloner/command_store.cpp:331-344 | booting under other limits loads exactly the commands that still fit, writes nothing, and the old limits bring everything back |
| `Recovery.LoadAccounts` | components/rf_cloner/command_store.cpp:331-374 | for any flash contents, loaded + lost + left out is the number of occupied rows, and read-only means a fault |
| `CommandStore.CommandStore.Find` | components/rf_cloner/command_store.cpp:377-405 | the search loop is `First` |
| `CommandStore.CommandStore.CountCommands` | components/rf_cloner/command_store.cpp:798-806 | counts the occupied slots |
| `CommandStore.CommandStore.Projected` | components/rf_cloner/command_store.cpp:422-433 | the byte total the budget check compares, leaving out the slot being replaced |
| `CommandStore.CommandStore.GetById` | components/rf_cloner/command_store.cpp:510-517 | returns the command exactly when its id is held |
| `CommandStore.CommandStore.WritePayload` | components/rf_cloner/command_store.cpp:829-833 | one save of the waveform's bytes under the slot's key |
| `CommandStore.CommandStore.WriteIndex` | components/rf_cloner/command_store.cpp:835-876 | builds the index byte by byte, then saves index and header in that order, stopping at the first refusal |
| `CommandStore.CommandStore.Put` | components/rf_cloner/command_store.cpp:435-499 | the method with its manual rollback does to fields and flash exactly what the plan and save list say, for any number of saves that land |
| `CommandStore.CommandStore.Rename` | components/rf_cloner/command_store.cpp:523-560 | as Put, for rename |
| `CommandStore.CommandStore.Remove` | components/rf_cloner/command_store.cpp:562-572 | as Put, for removal by name |
| `CommandStore.CommandStore.RemoveById` | components/rf_cloner/command_store.cpp:574-605 | as Put, for removal by id |
| `CommandStore.CommandStore.ClearAll` | components/rf_cloner/command_store.cpp:607-643 | as Put, for clearing, including abandoning an open restore and keeping identity and counter |
| `CommandStore.CommandStore.FactoryReset` | components/rf_cloner/command_store.cpp:645-661 | as Put, for the one operation that ignores read-only mode and does not roll RAM back |
| `CommandStore.CommandStore.RestoreBegin` | components/rf_cloner/command_store.cpp:663-703 | as Put, for opening a restore |
| `CommandStore.CommandStore.ImportCommand` | components/rf_cloner/command_store.cpp:705-755 | as Put, for one import |
| `CommandStore.CommandStore.RestoreCommit` | components/rf_cloner/command_store.cpp:757-796 | as Put, for closing a restore |
| `CommandStore.CommandStore.Begin` | components/rf_cloner/command_store.cpp:254-298 | the boot method reads exactly what the boot function says, over any flash contents |
| `CommandStore.CommandStore.LoadStoredIndex` | components/rf_cloner/command_store.cpp:300-375 | the index and row loop: fields, slots, tallies, the first damaged slot named |
| `Runs.StepTracks` | components/rf_cloner/command_store.cpp:254-796 | through completed, refused and cut operations and reboots, RAM is sound and flash describes a sound registry: the last one whose index landed |
| `Runs.FirstBootTracks` | components/rf_cloner/command_store.cpp:266-275 | a first boot whose identity write lands mints an empty sound registry, in step with flash: the start of every run |
| `Runs.RebootKeeps` | components/rf_cloner/command_store.cpp:254-375 | any boot over a described registry restores its metadata and a part of its commands, each with its own id and name |
| `Runs.RevisionSequence` | components/rf_cloner/command_store.cpp:159-171 | an acknowledged operation saves nothing and changes nothing, or raises the revision by one (past the larger of both for a restore commit); at the ceiling nothing is written |
| `Runs.StorageErrorsAreRefusedSaves` | components/rf_cloner/command_store.cpp:490-497 | STORAGE_ERROR is reported exactly when a save was refused, and OK exactly when nothing had to be written or every save landed |
| `Runs.RevisionNeverFalls` | components/rf_cloner/command_store.h:34-56 | over any run without factory reset, through refused saves, cuts and reboots, the revision never falls and stays within REVISION_MAX |
| `Runs.ListingStaysEvidence` | components/rf_cloner/command_store.cpp:454-487 | whatever the device holds at any later point of a run was in the earlier listing or is numbered from the earlier counter on |
| `Runs.IdsNeverReused` | components/rf_cloner/command_store.cpp:454-487 | two acknowledged puts of new names, any run of operations, cuts and reboots apart: the id the second name is found under is greater than the id the first was |
| `Runs.DeletedStaysDeleted` | components/rf_cloner/command_store.cpp:574-643 | an id dropped by an acknowledged remove or clear never comes back |
| `Runs.ReadOnlyBootIsFrozen` | components/rf_cloner/command_store.cpp:281-375 | every read-only boot, whatever fault made it one, is a session in which RAM is what any further boot finds |
| `Runs.ReadOnlyWritesNothing` | components/rf_cloner/command_store.cpp:239-252 | in such a session no run of operations, cuts and reboots without factory reset changes RAM or a byte of flash |
| `Runs.ReadOnlyBootStandsStill` | components/rf_cloner/command_store.cpp:239-252 | so after any read-only boot nothing changes until a factory reset |
| `Runs.FactoryResetRevives` | components/rf_cloner/command_store.cpp:645-661 | an acknowledged factory reset leaves a writable, empty, fresh registry that a reboot finds |
| `Durable.EventKeeps` | components/rf_cloner/command_store.cpp:254-876 | every operation with any of its saves refused, and every cut and boot, keeps: RAM is never ahead of flash; flash describes a sound registry and takes no waveform for another; and where both are closed registries of one bridge at one revision they are the same |
| `Durable.AttemptOnFlash` | components/rf_cloner/command_store.cpp:829-876 | an attempt stopped at any save leaves flash describing the old or the new registry, with no waveform that loads as a different one of the command it is listed for |
| `Durable.RolledBack` | components/rf_cloner/command_store.cpp:490-497 | a refused save leaves RAM as it was, or freshly minted after a reset, and every waveform RAM names is still its own or unreadable |
| `Durable.BootTells` | components/rf_cloner/command_store.cpp:331-374 | over such records a boot finds exactly the registry flash describes, or is read-only with a part of its commands, each unchanged |
| `Bridge.ParseBridgeId` | components/rf_cloner/rf_cloner.cpp:590-613 | the parser accepts exactly 32 hex characters of either case and returns their bytes |
| `Bridge.HexAccepted` | components/rf_cloner/rf_cloner.cpp:590-613 | text parses exactly when it is hex digits of either case, and case makes no difference |
| `Bridge.HexRoundTrip` | components/rf_cloner/command_store.cpp:201-210 | every identity survives being shown and parsed |
| `Bridge.HexCanonical` | components/rf_cloner/rf_cloner.cpp:590-613 | what parses is shown again in lower case: only case is lost |
| `Bridge.HexInjective` | components/rf_cloner/command_store.cpp:201-210 | no two identities are shown alike |
| `Bridge.ListingIsHeld` | components/rf_cloner/command_store.cpp:818-827 | the status listing names exactly the ids held |
| `Bridge.ListingLines` | components/rf_cloner/command_store.cpp:818-827 | every line of the listing is the id and the name of one held command |
| `Bridge.ExportOfListed` | components/rf_cloner/command_store.cpp:510-517 | exporting a listed id returns the listed command |
| `Restore.AsyncRestore` | custom_components/rf_cloner/restore.py:64-110 | the three-phase protocol over a real store, whose every answer is dropped, raises and leaves exactly what the run function says |
| `Restore.RestoreIsSound` | custom_components/rf_cloner/restore.py:64-110 | whatever is refused and whichever saves fail, a restore that raises nothing left exactly the snapshot (ids, slots 0..n-1, identity, counter, closed, revision past the snapshot's) in RAM and on flash, and a reboot finds it |
| `Restore.QuietRestoreIsExactIff` | custom_components/rf_cloner/restore.py:91-110 | a restore that raises nothing restored its snapshot if and only if the snapshot is not empty or the begin call opened |
| `Restore.CheckRefusesExactly` | custom_components/rf_cloner/restore.py:30-61 | the check passes exactly for a writable, closed target holding nothing, a snapshot within its slots and pulses and a revision in the domain; and each refusal is the first of these that fails |
| `Restore.RestoreCompletes` | custom_components/rf_cloner/restore.py:86-89 | with storage that works, any snapshot that fits is restored: begin, every import and commit succeed |
| `Restore.RestoreSucceedsIffRestorable` | custom_components/rf_cloner/restore.py:30-61 | with storage that works, a restore of a non-empty snapshot raises nothing exactly when the snapshot fits the target |
| `Restore.CeilingRevisionLeavesRestoreOpen` | custom_components/rf_cloner/restore.py:54-61 | the check admits a snapshot at REVISION_MAX, which the commit then refuses: the restore is left open, against the comment at these lines |
| `Restore.EmptyRestoreMayBeIgnored` | custom_components/rf_cloner/restore.py:91-110 | when a restore of an empty snapshot does not open, it raises nothing exactly when the target already shows that identity and a later revision |
| `Interrupted.UninterruptedIsRestore` | custom_components/rf_cloner/restore.py:64-110 | without power cuts the call-by-call protocol is the restore of a device that only refuses saves |
| `Interrupted.RestoreSurvivesPowerCuts` | custom_components/rf_cloner/restore.py:64-110 | whatever becomes of each call, saves refused or power cut at any save and the device booted before the next call, a restore that raises nothing left exactly the snapshot in RAM and on flash, if flash was closed and empty like the RAM the check saw |
| `Interrupted.BootedTargetIsFresh` | custom_components/rf_cloner/restore.py:30-61 | a target that passes the check after a boot is closed and empty on flash too |
| `Interrupted.LeftoverBeginFoolsTheRestore` | components/rf_cloner/command_store.cpp:686-699 | without that: a begin call refused after its index landed leaves flash open under another id counter, and a later restore cut in its begin call raises nothing and ends with that counter |
| `Replica.SnapshotManager.Refresh` | custom_components/rf_cloner/snapshot.py:107-157 | the replica changes only for this bridge's identity, with no restore open, under a token it does not carry and with every answer in, and then it is the answers under the status |
| `Replica.ForeignHardwareIsIgnored` | custom_components/rf_cloner/snapshot.py:112-123 | over any run whatsoever, with resets, restores under other identities and other boards, replica and refreshes in flight stay copies of this bridge |
| `Replica.SnapshotManager.ExportAll` | custom_components/rf_cloner/snapshot.py:159-174 | all answers in listing order, or none when any is missing |
| `Replica.CompleteRefresh` | custom_components/rf_cloner/snapshot.py:143-150 | a refresh whose every export answered stores exactly the answers |
| `Replica.PartialRefreshKeepsReplica` | custom_components/rf_cloner/snapshot.py:133-141 | a refresh that misses any command keeps the previous replica whole |
| `Replica.RunKeepsGood` | custom_components/rf_cloner/snapshot.py:107-174 | under every interleaving, refused saves, cuts and boots included, every copy read so far stays a prefix of, or behind, both what RAM shows and what the next boot would find |
| `Replica.FirstBootIsGood` | custom_components/rf_cloner/snapshot.py:94-94 | a first boot nobody has read yet, with no replica, is a start from which the replica results hold |
| `Replica.ReplicaIsExact` | custom_components/rf_cloner/snapshot.py:107-174 | for every admissible interleaving of refreshes, exports, operations, saves refused anywhere, cuts and restores: whenever replica and writable, closed device carry the same identity and revision, the replica holds exactly the device's commands and counter |
| `Replica.SkippedRefreshIsCurrent` | custom_components/rf_cloner/snapshot.py:125-131 | so in a writable session a refresh that declines to export leaves no stale replica |
| `Refreshing.RefreshIsItsCalls` | custom_components/rf_cloner/snapshot.py:107-174 | a refresh carried out call by call, with any device events between the calls and transport errors, leaves exactly what the snapshot manager computes from the status and the answers |
| `Refreshing.ReadOnlyRefreshStoresWhatLoaded` | custom_components/rf_cloner/snapshot.py:112-150 | a refresh begun in a read-only session stores exactly the commands that loaded, under the token of the whole registry |
| `Refreshing.RefreshAfterTornRelearnDropsTheCommand` | custom_components/rf_cloner/snapshot.py:112-150 | after a torn relearn a refresh stores the shortened listing, so a replica that was not yet current loses the command too |
| `Replacement.RestoreIsAdmissible` | custom_components/rf_cloner/restore.py:86-89 | a restore onto a target that passes the check is one of the runs the replica results allow, whichever of its saves are refused, when no copy newer than its snapshot is about and no waveform that lands alone collides with an earlier one of the snapshot |
| `Replacement.RestoredReplicaStaysExact` | custom_components/rf_cloner/restore.py:64-110 | restoring the replica itself keeps the replica invariant; if it raised nothing the device holds the replica's commands under a later revision and the next status read calls for a refresh |
| `Replica.ClosingRepeatsTheTokenIff` | components/rf_cloner/command_store.cpp:757-796 | closing a restore, by commit or clear, repeats the change token exactly when a copy of the adopted identity carries the revision it is closed under |
| `Replica.CommitWithoutSourceFoolsTheToken` | components/rf_cloner/command_store.h:220-223 | a commit that passes 0 for an unknown source revision can publish a token a copy already has for other commands |
| `Replica.RecycledIdentityFoolsTheToken` | components/rf_cloner/command_store.cpp:645-661 | with an identity minted twice, a reset and the first command learned after it reach a token under which a copy of the earlier bridge holds another command |
| `Replica.CollidingRelearnFoolsTheToken` | components/rf_cloner/command_store.cpp:490-497 | a torn relearn whose waveform collides with the old one replays the new one under the old token |
| `Replica.AbandonedRestoreFoolsTheToken` | components/rf_cloner/command_store.cpp:607-643 | a restore abandoned by clear_all keeps the adopted identity on the local revision, so an emptied registry can carry a token the replica has for a full one |
| `Replica.TornRelearnKeepsTheToken` | components/rf_cloner/command_store.cpp:490-497 | a relearn cut after its waveform comes back with one command fewer under an unchanged token |
| `Targets.ReadShown` | custom_components/rf_cloner/targets.py:145-163 | every id survives being written as an options key and read back, with or without a plus sign |
| `Targets.TargetsAre` | custom_components/rf_cloner/targets.py:76-105 | the targets are exactly the ids some subentry of the target kind defines, each known by the last that does |
| `Targets.AssignedIs` | custom_components/rf_cloner/targets.py:167-177 | a command's target is the one the last word on it names, as its last subentry defines it |
| `Targets.UnassignedIs` | custom_components/rf_cloner/targets.py:167-177 | a command no item says anything about has neither target nor icon |
| `Targets.SortedKeysAscend` | custom_components/rf_cloner/targets.py:190-208 | the ids are rendered in increasing order |
| `Targets.ShownPlainly` | custom_components/rf_cloner/targets.py:190-208 | ids are rendered as plain decimal numerals |
| `Targets.MetaIs` | custom_components/rf_cloner/targets.py:145-163 | an id has metadata exactly when some item gives it any, and it is what the last such item says |
| `Targets.FieldIs` | custom_components/rf_cloner/targets.py:124-134 | a field is read exactly when the object holds it as a non-empty text |
| `Targets.MetaRoundTrip` | custom_components/rf_cloner/targets.py:122-142 | metadata survives being stored, absent fields left out |
| `Targets.OptionsRoundTrip` | custom_components/rf_cloner/targets.py:145-208 | what options_with writes, command_meta reads back |
| `Targets.ReadCommandMeta` | custom_components/rf_cloner/targets.py:145-163 | the reading loop: later keys win, unreadable keys and empty metadata are skipped |
| `Targets.WriteOptions` | custom_components/rf_cloner/targets.py:190-208 | the merge and the sorted rendering |
| `Targets.PruneOptions` | custom_components/rf_cloner/targets.py:211-253 | the pruning loop decides each id as specified, in any order, and answers none when nothing changes |
| `Targets.PruneKeeps` | custom_components/rf_cloner/targets.py:211-253 | exactly which ids survive a prune, with which target and icon |
| `Targets.PruneTouchesOnlyCommands` | custom_components/rf_cloner/targets.py:204-208 | no other option and no subentry is touched |
| `Targets.PruneIsFixedPoint` | custom_components/rf_cloner/targets.py:219-224 | a second prune finds nothing, and every remaining assignment names an existing target |
| `Targets.PruneWithoutListing` | custom_components/rf_cloner/targets.py:226-230 | with no listing to trust only dangling assignments are cleared |
| `Targets.PruneKeepsAssignments` | custom_components/rf_cloner/targets.py:171-178 | no command that is not gone changes target or loses its icon by a prune |
| `Reconcile.UniqueIdRoundTrip` | custom_components/rf_cloner/reconcile.py:44-66 | a command's unique id is recognised as that command's |
| `Reconcile.OthersNameNoCommand` | custom_components/rf_cloner/reconcile.py:44-66 | a unique id names a command exactly when it is the identity, an underscore and a numeral |
| `Reconcile.PruningOrganises` | custom_components/rf_cloner/reconcile.py:174-184 | without a status, with foreign hardware or an open restore a prune leaves every target and icon; else it drops exactly what the read does not list, below its counter where one is given |
| `Reconcile.PurgeRemovesExactly` | custom_components/rf_cloner/reconcile.py:243-266 | exactly the records of unlisted commands go; records whose unique id names no command of this bridge stay |
| `Reconcile.CommandReconciler.Reserve` | custom_components/rf_cloner/reconcile.py:148-156 | records the claim with its lapse sixty seconds on; other claims stay |
| `Reconcile.CommandReconciler.Release` | custom_components/rf_cloner/reconcile.py:158-161 | only the named claim is dropped |
| `Reconcile.CommandReconciler.Activate` | custom_components/rf_cloner/reconcile.py:120-124 | records the target subentries that exist before honouring removals |
| `Reconcile.CommandReconciler.IsReserved` | custom_components/rf_cloner/reconcile.py:163-172 | a claim holds until it lapses and is forgotten once seen lapsed |
| `Reconcile.CommandReconciler.VisibleCommands` | custom_components/rf_cloner/reconcile.py:186-200 | without a status, with foreign hardware or an open restore: nothing shown and every claim kept; else exactly the listed ids whose name no live claim holds, and exactly the lapsed claims met are dropped |
| `Reconcile.CommandReconciler.PurgeRemoved` | custom_components/rf_cloner/reconcile.py:243-266 | nothing is purged without a trusted listing and an identity |
| `Reconcile.CommandReconciler.Reconcile` | custom_components/rf_cloner/reconcile.py:202-241 | another identity or an open restore changes nothing; otherwise exactly the claims of listed names are spent, records purged, and exactly the unlisted commands lose their organisation |
| `Reconcile.CommandReconciler.HandleEntryUpdate` | custom_components/rf_cloner/reconcile.py:268-310 | without a status, with foreign hardware or an open restore every target and icon stays; else exactly the commands not listed and numbered below the counter of the read lose them; the platforms are told only when nothing was pruned |
| `Reconcile.ReserveAndLook` | custom_components/rf_cloner/reconcile.py:148-172 | a claim holds its name for sixty seconds from when it was made and no longer |
| `Reconcile.UpdateAndReentry` | custom_components/rf_cloner/reconcile.py:306-310 | an update, with the one it schedules when it prunes, tells the platforms exactly once and leaves nothing to prune |
| `Reconcile.StaleListingIsSafe` | custom_components/rf_cloner/reconcile.py:296-309 | pruning against a listing as old as you like never drops the target or icon of a command the device holds now, whatever run of learning, failures and cuts lies between |
| `Reconcile.CounterIsNeeded` | custom_components/rf_cloner/reconcile.py:296-305 | without the counter the same prune drops a command learned just after the read |
| `Capture.StripTerminator` | components/rf_cloner/capture_validator.cpp:21-25 | drops exactly the last entry |
| `Capture.ValidateFrame` | components/rf_cloner/capture_validator.cpp:27-44 | accepts exactly the well-shaped frames, judging length before pulses |
| `Capture.FramesAgree` | components/rf_cloner/capture_validator.cpp:46-65 | the loop is agreement at every position |
| `Capture.AgreementInProducts` | components/rf_cloner/capture_validator.cpp:46-65 | agreement without division or machine arithmetic: equal lengths, equal polarity, each duration within the tolerance, and the one duration whose upper bound wraps |
| `Capture.AgreesWithItself` | components/rf_cloner/capture_validator.cpp:46-65 | a frame agrees with itself unless it is empty, or tolerance is 100% and a space is INT32_MIN, whose upper bound wraps |
| `Capture.AgreementIsOneWay` | components/rf_cloner/capture_validator.cpp:46-65 | agreement is not symmetric |
| `Capture.FrameDuration` | components/rf_cloner/capture_validator.cpp:67-73 | the loop computes the saturating sum of magnitudes |
| `Capture.DurationAdds` | components/rf_cloner/capture_validator.cpp:67-73 | a frame's duration is that of its parts together, saturating at 32 bits |
| `Capture.SplitWindow` | components/rf_cloner/capture_validator.cpp:75-100 | the cutting loop and the trimming of trailing gaps |
| `Capture.SplitUndoesLaying` | components/rf_cloner/capture_validator.cpp:75-100 | frames laid out between runs of long spaces come back whole and in order, with the first space after each but the last |
| `Capture.SplitReadsTheWindow` | components/rf_cloner/capture_validator.h:47-65 | every window is its frames laid out between runs of long spaces: no frame empty or holding one, gaps one fewer than frames, gap i the first long space after frame i |
| `Capture.SplitKeepsEveryPulse` | components/rf_cloner/capture_validator.cpp:75-100 | the frames end to end are the window without its long spaces |
| `Capture.EstimateBound` | components/rf_cloner/capture_validator.h:67-76 | n + 1 arrivals each noticed within a tick: a non-zero estimate is off by less than tick/n + 1 below and tick/n above, over real periods and delays; and with enough intervals and a true gap well inside the bounds there is one |
| `Capture.EstimateIsTheMean` | components/rf_cloner/capture_validator.cpp:102-116 | a gap is the estimate exactly when it is within bounds, the intervals are enough, and it is the whole microseconds the mean period leaves |
| `Capture.WholeEstimateBound` | components/rf_cloner/capture_validator.h:67-76 | the same on whole microseconds: at most floor(tick/n) + 1 |
| `Capture.TickOverNNeedsExactDivision` | components/rf_cloner/capture_validator.h:71-72 | for any loop period of at least a microsecond and any span and count that yield an estimate: the documented bound of one loop period over the count holds for every train of arrivals exactly when the count divides the span |
| `Learner.RfCloner.Learn` | components/rf_cloner/rf_cloner.cpp:197-241 | re-arming cancels first; name and room are checked before arming; which fields arming leaves alone |
| `Learner.RfCloner.Cancel` | components/rf_cloner/rf_cloner.cpp:243-248 | only an armed learn can be cancelled |
| `Learner.RfCloner.OnReceive` | components/rf_cloner/rf_cloner.cpp:250-313 | what a window does to every learn field and to the store, including the commit |
| `Learner.RfCloner.ConsumeMultiFrame` | components/rf_cloner/rf_cloner.cpp:315-366 | the pair loop: which neighbours count, when the candidate changes, what gaps are kept |
| `Learner.RfCloner.Loop` | components/rf_cloner/rf_cloner.cpp:368-397 | commit after the settle time, give up at the deadline with the most specific reason |
| `Learner.RfCloner.ResolveGap` | components/rf_cloner/rf_cloner.cpp:399-432 | median of measured gaps if plausible, else the estimate, else the default |
| `Learner.RfCloner.CommitCapture` | components/rf_cloner/rf_cloner.cpp:434-460 | one put of the candidate under the pending name, and the outcome reported |
| `Learner.RfCloner.Fail` | components/rf_cloner/rf_cloner.cpp:462-471 | a failed learn forgets its candidate, gaps and agreements |
| `Learner.DueExactly` | components/rf_cloner/rf_cloner.cpp:378-378 | the wrapping deadline test is exact within 2^31 ms either way |
| `Learner.MedianFollowsTheMajority` | components/rf_cloner/rf_cloner.cpp:400-405 | when more than half the measured gaps lie in a range, so does the median |
| `Learner.MedianIsTheUpper` | components/rf_cloner/rf_cloner.cpp:400-405 | more than half the samples are at most the median and at most half are below it |
| `Learner.ResolvedGap` | components/rf_cloner/rf_cloner.cpp:399-432 | the gap stored always lies within min_gap..max_gap |
| `NoiseGate.NoiseGate` | components/rf_cloner/rf_cloner.cpp:250-397 | in any run from boot, a put happens only while armed, under a valid name, with a well-shaped waveform backed by at least min_repeats different well-shaped frames heard since arming, each directly or through the pair it ends |
| `NoiseGate.StoresNeverExceedArmings` | components/rf_cloner/rf_cloner.cpp:197-241 | a run never puts more often than it arms |
| `NoiseGate.CaptureIsStorable` | components/rf_cloner/rf_cloner.cpp:434-460 | a commit's put is never refused for name or pulses; when it succeeds the name finds exactly the candidate with a plausible gap, and when it fails RAM is unchanged |
| `NoiseGate.LearningIsAStoreRun` | components/rf_cloner/rf_cloner.cpp:434-443 | a run of the component changes the store exactly as a run of store operations, so every result about those applies |
| `Capturing.WindowOfCopies` | components/rf_cloner/rf_cloner.cpp:315-366 | n copies of a new frame in a window make n agreements and the n - 1 spaces between them, ready exactly from min_repeats on and committed exactly with three copies or more |
| `Capturing.OneWindowIsEnough` | components/rf_cloner/rf_cloner.cpp:315-366 | a window of max(3, min_repeats) copies or more of a frame, whatever noise came before, is stored at once by one put, with the median of its spaces when that is plausible |
| `Capturing.TwoCopiesSettle` | components/rf_cloner/rf_cloner.cpp:357-376 | with min_repeats two, two copies in a window are stored by the first tick the settle time after it and not before |
| `Capturing.HoldingTheButton` | components/rf_cloner/rf_cloner.cpp:268-313 | windows of one agreeing frame each: nothing is stored until the 25th, or the min_repeats-th if later, which stores the first frame; ready exactly from the min_repeats-th on |
| `Capturing.LettingGo` | components/rf_cloner/rf_cloner.cpp:368-377 | with min_repeats such windows, a tick stores the frame exactly from the settle time after the min_repeats-th on, even past the deadline |
| `Capturing.StoredIsFound` | components/rf_cloner/rf_cloner.cpp:434-460 | what was stored is found under the name the learn was armed for, field by field, or the registry is as before |
| `Capturing.ArmAndHear` | components/rf_cloner/rf_cloner.cpp:197-366 | from arming a valid name there is room for, through one good window, to the frame and the measured gap under that name in the registry, or a refusal of the store |
| `Outcomes.ArmingForeseesThePut` | components/rf_cloner/rf_cloner.cpp:197-222 | a learn is refused exactly for what the put of its capture would be refused for: the same name error, or no slot |
| `Outcomes.DeadlineIsKept` | components/rf_cloner/rf_cloner.cpp:378-397 | whatever is heard meanwhile, a learn not ready is given up by a tick exactly from its deadline on, in true time across the clock's wrap; a ready one never |
| `Outcomes.FailureTellsWhatWasHeard` | components/rf_cloner/rf_cloner.cpp:378-397 | over any run, a learn given up at its deadline reports no agreement exactly when a window since arming held a well-shaped frame, the timeout exactly when none was heard, and else what was wrong with the last |
| `GapSource.SpanIsSumOfIntervals` | components/rf_cloner/rf_cloner.cpp:290-302 | in any run from boot, the span is the sum mod 2^32 of exactly interval_count intervals, each at most frame duration plus max_gap |
| `GapSource.EstimatedGapOfARun` | components/rf_cloner/rf_cloner.cpp:399-432 | the gap a run stores when none was measured, or the median of those measured is implausible, is within the estimate's bound of the true one, or it is the default, and then there were fewer than three intervals or the true gap is not well inside the bounds |
| `GapSource.MeasuredOnTheWaveform` | components/rf_cloner/rf_cloner.cpp:335-342 | each gap the stored median is taken from is the space after a named frame of a window heard since arming, between neighbours that agree; that frame backs the stored waveform for every gap measured since a lone frame last replaced the candidate |
| `GapSource.GapOfAnotherWaveform` | components/rf_cloner/rf_cloner.cpp:279-287 | under the default configuration, a sequence of windows of marks and spaces at increasing times that stores one waveform with a gap measured between frames of another |

## Left out

- Preferences handles, `sync()` and wear levelling: a save lands or is refused, in order.
- Preference keys are distinct tags (header, index, waveform of slot i); the salted hash behind them is not modelled.
- A store without a backend, and a boot whose first identity write is lost.
- Radio, RMT peripheral, transmission, triggers, sensors, logging and code generation.
- Learn, store and platform callbacks: they are counted or ignored, and do not call back into the model.
- Values that do not fit the wire's 32-bit integers, and the narrowing of action arguments; command ids, counters and waveforms are in range by type. A revision outside 0..REVISION_MAX is a refused call.
- The stored form of a snapshot and its capture time: the replica is a value.
- Python's further spellings of an integer key (whitespace, underscores, other digits): a key is a decimal numeral with an optional sign.
- A target's name, type and area, and Home Assistant's entity and device registries beyond the list of records a purge filters.
- The 0.1 migration, config and options flows, entities, services and diagnostics.
- Randomness: a minted identity is a parameter, taken to be fresh where the replica needs it.
- Learn termination: alternating candidates can keep a learn armed for ever.
- `agreements_` and `interval_count_` are unbounded naturals; reaching 2^32 takes more frames than a learn can hear.
- Replica.ReplicaIsExact: speaks of a writable session with no open restore, and of admissible runs. In those (1) a waveform that lands without its index does not collide, in length and CRC, with a different waveform of the command flash describes in that slot, or, when the device goes on, of the command RAM holds there (`Durable.Clean`); (2) a restore is closed, by commit or clear, under a revision no copy of the adopted identity has reached, which a commit carrying the snapshot's revision meets (Replacement.RestoreIsAdmissible); (3) a minted identity is one no copy carries. The lemmas named FoolsTheToken show what happens otherwise.
- Replacement.RestoreIsAdmissible: inherits (1) for the imports of the restore.
- Interrupted.RestoreSurvivesPowerCuts: a call the transport reports as failed ends the restore with an error, which is not modelled; a snapshot without commands needs a begin call whose index landed, as without power cuts.
- Replica.SkippedRefreshIsCurrent: speaks of a writable session; for a read-only one see Replica.TornRelearnKeepsTheToken and Refreshing.ReadOnlyRefreshStoresWhatLoaded.
- Reconcile.StaleListingIsSafe: assumes a run without restore_begin or factory_reset since a moment when flash could bring back nothing RAM had let go; an acknowledged write is such a moment.
- GapSource.EstimatedGapOfARun: assumes the counted arrivals span less than 2^32 microseconds, the range of the clock.
