# A Dafny model of mkube's stateful cores

A Dafny model of six parts of the repository, with proofs of what they promise:

1. **The ISO 9660 patcher** (`pkg/provider/iso9660.go`), as operations on the bytes of an image: parsing and building directory
   records, resolving paths, replacing, adding and deleting files, and whole patch lists.
2. **The bare-metal job scheduler** (`pkg/provider/job_scheduler.go`, `job_crd.go`, `hostreservation_crd.go`,
   `jobrunner_crd.go`), as a state machine whose steps are scheduler ticks and request handlers.
3. **Boot ordering and the watchdog** (`pkg/lifecycle/manager.go`).
4. **The DNS answer check** (`pkg/provider/dns_smoketest.go`), against the message format of section 4.1 of RFC 1035.
5. **The peer full resync** (`pkg/cluster/sync.go`), as one call and as two processes interleaving key by key.
6. **The DNS client's batch cache** (`pkg/dns/client.go`).

Every part has the same shape. Classes and methods with loops follow the code statement by statement; each `ensures` ties the
new state to a function or relation of the old one, and the lemmas prove the promises about those functions and relations.

| files | content |
|---|---|
| `Bytes.dfy` | bytes, numbers in both byte orders, case folding, splitting and joining |
| `Iso9660Record.dfy`, `Iso9660Format.dfy`, `Iso9660Image.dfy` | directory records; the records of the standard; what each function of the patcher does to the image bytes |
| `Iso9660Catalog.dfy`, `Iso9660Layout.dfy`, `Iso9660Volume.dfy`, `Iso9660Errors.dfy` | directory trees; framing of records in sectors; well-formed images and the view of a path; why a path cannot be read |
| `Iso9660Refinement.dfy`, `Iso9660Replace.dfy`, `Iso9660ReplaceDir.dfy`, `Iso9660Add.dfy`, `Iso9660Slot.dfy`, `Iso9660AddAgain.dfy`, `Iso9660AddLong.dfy`, `Iso9660Delete.dfy`, `Iso9660Patches.dfy`, `Iso9660PatchDelete.dfy` | what each edit, and a list of edits, does to the view |
| `Iso9660Example.dfy` | well-formed images, a first file, and a subdirectory that is replaced |
| `Iso9660File.dfy` | the patcher's loops and in-place writes |
| `JobState.dfy`, `JobInvariant.dfy`, `JobPass.dfy`, `JobEffects.dfy`, `JobRequests.dfy`, `JobRuns.dfy`, `JobProvider.dfy` | scheduler steps, their invariant, exactness and effect of a pass, of agent calls, requests and power switching, properties of runs, the provider's maps and handlers |
| `JobOverflow.dfy`, `JobOverflowTurns.dfy`, `JobOverflowSafe.dfy`, `JobOverflowUnsafe.dfy`, `JobOverflowPass.dfy`, `JobExamples.dfy` | when a turn, and when a whole pass, may give one host to two jobs; runs in which that, or an overdue job's failure, happens |
| `BootOrder.dfy`, `Watchdog.dfy`, `WatchdogRounds.dfy` | lifecycle manager: boot order; the watchdog; when exactly a round restarts |
| `DnsAnswer.dfy`, `DnsQuery.dfy`, `DnsBatch.dfy` | DNS answer check and query; which name a query asks about; DNS client cache |
| `FullSync.dfy` | full resync |

## What a well-formed image is

`Iso9660Volume.WellFormed` asks for a volume descriptor and a set of directory extents such that: every extent in use lies after
the descriptor and inside both the volume and the file; directories are whole sectors, apart from each other and from file extents;
each directory sector is records followed by zeros, each record inside its sector and each identifier inside its record; names
are unique up to case in each directory; each subdirectory is known and has one parent. `View` is what the code's own resolution
and reading give for a path, so theorems about `View` are theorems about what a reader sees.

## Where the code differs from what it says

- `iso9660ParseDirRecord` computes the end of the identifier in 8 bits: a record whose identifier length is at least 223 makes
  it slice out of range (`ParseCrashesIff`).
- A built record's length byte and its identifier's are cut to 8 bits, and adds do not refuse long names. The record of a name of
  more than 107 bytes, parsed where it was written, never gives the name (`NewRecordRoundTripIff`), so an add that succeeds lists
  exactly one record more, of that name, only up to 107 bytes (`AddListsIff`). Beyond that, by the length alone: the record is not
  seen and nothing changes; or every listing of the directory slices out of range from then on, so that nothing under it can be
  reached; or some other records are read from the record's bytes (`BuiltRecordParse`, `AddAnyName`; on a concrete image `LongFile`).
- Adding a name that is already listed does not fail. Which content the path then reads depends on where the free slot is, and what
  lay under the path leaves the view if the new record comes first (`AddAgain`).
- A path of the form `//name` passed to an add creates `/name` (`AddKeyIsPathKey`).
- Deleting zeroes the length byte, which also hides the records behind it in the same sector (`DeleteRefines`); only the deleted
  record is lost exactly when none follows it there (`DeleteLosesOneIff`).
- Replacing a directory is not refused: it succeeds and points the directory's record at the content, but the path stays a
  directory, and the paths under it are looked up in the content. A replace of a path in view makes its update exactly when the path names no directory (`ReplaceIff`,
  `LastReplaceIff`; a concrete image in `DirectoryStays`).
- Replacing or deleting `/` succeeds, writes into the unused system area and changes nothing a reader sees (`StepReplaceRoot`,
  `DeleteOpRefines`).
- The provisioning clock starts at job creation: a job that a tick schedules more than ten minutes after its creation is failed
  by that same tick (`ScheduledSurvivesIff`; a run in which it happens in `OverdueJobFails`).
- Neither the overflow search nor the creation of a reservation checks that the host is idle. So an overflow runner can give a
  busy host away (`OverflowShares`), and once a busy host is reserved for a pool so can a runner that allows no overflow
  (`BusyHostReserved`, `ReservedHostShares`). A pending job's turn is sure to keep hosts exclusive exactly when no host it may
  be offered is busy (`ScheduleExclusiveIff`); `PassExclusiveIff` gives the exact condition, on the state before it, for a whole pass.
- `HandleFullSyncImport` is documented as a merge but overwrites. Two crossing resyncs can therefore swap the two values of a
  key in dispute (`CrossedSwaps`, `CrossingConvergesIff`). It also takes buckets that no node ever sends (`ImportedBuckets`).
- A DNS query cuts each label's length to a byte and refuses none: its question names the host exactly when all labels have at most
  63 bytes (`QueryReadsBackIff`).
- The DNS cache key joins endpoint and zone with a colon, and a missing zone blacklists its whole endpoint for the batch
  (`CacheFaithfulIff`, `SharedKey`, `MissingZone`).

## Model

| member | source | states |
|---|---|---|
| Bytes.ReadOfWrite | pkg/provider/iso9660.go:21-29 | reading a number back from the field written in both byte orders gives it, for every 32-bit number |
| Bytes.LittleEndianOnly | pkg/provider/iso9660.go:21-24 | the number read depends on the little-endian half only, whatever the other half holds |
| Bytes.BigEndianHalf | pkg/provider/iso9660.go:21-29 | the big-endian half of that field, which the code itself never reads, holds the number too |
| Bytes.EqualFoldIff | pkg/provider/iso9660.go:225-245 | names match exactly if at each place they have the same byte or one letter in its two cases |
| Bytes.SplitJoin | pkg/provider/iso9660.go:523-533 | splitting a path at slashes undoes joining its components, so parent path and base name put the path together again |
| Bytes.JoinSplit | pkg/provider/iso9660.go:523-533 | joining undoes splitting, for every path |
| Iso9660Record.ParseCrashesIff | pkg/provider/iso9660.go:102-135 | parsing a record slices out of range exactly when the record is otherwise acceptable and its identifier length is at least 223 |
| Iso9660Record.ParseLocal | pkg/provider/iso9660.go:102-135 | parsing depends on the record's own bytes only, so appended or edited neighbours do not change it |
| Iso9660Record.NewRecordRoundTrip | pkg/provider/iso9660.go:384-434 | parsing the built record, whatever follows it, gives back extent, length, file flag, upper-cased `;1` identifier and the name, for every name of at most 107 bytes, the empty one included, whose upper case is the ASCII one |
| Iso9660Record.NewRecordRoundTripIff | pkg/provider/iso9660.go:384-434 | a name whose upper case is the ASCII one is read back if and only if it has at most 107 bytes |
| Iso9660Record.BuiltRecordParse | pkg/provider/iso9660.go:102-135 | parsing the built record of a name of n bytes sees no record exactly when n mod 128 is 108 to 123, and slices out of range exactly when n mod 256 is 221 to 235, 252 or 253 |
| Iso9660Record.NewRecordSize | pkg/provider/iso9660.go:384-411 | the length computed by the two roundings is 2n + 40 or 2n + 42, and an NM entry is always written |
| Iso9660Format.ParseStandard | pkg/provider/iso9660.go:102-135 | every record of section 9.1 of ECMA-119, with any date, flags, identifier and system use entries and whatever follows it, is read back field by field: a directory exactly if bit 1 of the flags is set, `.` or `..` exactly if its identifier is the byte 0 or 1, its name the one the entries spell, or else its identifier's |
| Iso9660Format.NameOfEntries | pkg/provider/iso9660.go:139-169 | the name is the pieces of the NM entries in order, other entries skipped, up to the first that does not say that the name goes on |
| Iso9660Format.BadEntryEndsName | pkg/provider/iso9660.go:139-169 | an entry whose length is too small or points past the end ends the name |
| Iso9660Format.NameWithoutVersion | pkg/provider/iso9660.go:87-97 | without NM entries the name is the identifier up to its first semicolon |
| Iso9660Format.BuiltIsStandard | pkg/provider/iso9660.go:384-434 | the record an add builds for a name of 1 to 107 bytes is one of that section: no date, a plain file, volume 1, the name in capitals with version 1 as identifier, one NM entry |
| Iso9660Format.BuiltWithoutName | pkg/provider/iso9660.go:384-434 | for the empty name it differs from the standard's record in the padding byte behind the identifier |
| Iso9660Image.ReadPvd | pkg/provider/iso9660.go:41-62 | the descriptor is accepted exactly when the image holds its whole sector and that starts with type 1 and `CD001`; its three fields are then 32-bit numbers |
| Iso9660Image.FewestSectors | pkg/provider/iso9660.go:308-315 | content is padded with zeros to the fewest whole sectors that hold it |
| Iso9660Image.ReadBack | pkg/provider/iso9660.go:288-342 | bytes written at an offset, beyond the end or not, read back |
| Iso9660Image.WriteFrame | pkg/provider/iso9660.go:302-342 | a write leaves every range apart from it as it was, also when it grows the file |
| Iso9660Catalog.RecordDeterminesKey | pkg/provider/iso9660.go:207-257 | in a sound tree two paths name the same record only if they are equal up to case |
| Iso9660Catalog.SameKeySameRecord | pkg/provider/iso9660.go:225-245 | paths equal up to case name the same record |
| Iso9660Catalog.RetargetLookup | pkg/provider/iso9660.go:302-342 | after one record gets a new extent every path names the record it named before, with the new extent for that one only |
| Iso9660Catalog.RetargetSound | pkg/provider/iso9660.go:302-342 | giving a file record a new extent keeps the directory tree a tree |
| Iso9660Catalog.InsertLookup | pkg/provider/iso9660.go:436-479 | after a record is inserted the new path names it and every other path names what it named |
| Iso9660Catalog.InsertSound | pkg/provider/iso9660.go:436-479 | inserting a file record with a fresh name keeps the directory tree a tree |
| Iso9660Layout.ScanFramed | pkg/provider/iso9660.go:172-201 | the scan of a framed directory succeeds, and each record it lists is the one parsed at its own offset |
| Iso9660Layout.ScanRetarget | pkg/provider/iso9660.go:302-342 | writing new extent fields into one listed record changes exactly that record of the listing and keeps the framing |
| Iso9660Layout.ScanInsert | pkg/provider/iso9660.go:436-479 | a record written at the slot found is listed exactly once more, all others unchanged and in order, and the framing is kept |
| Iso9660Layout.SlotFree | pkg/provider/iso9660.go:436-464 | the slot found holds zeros only, inside one sector, and is long enough |
| Iso9660Slot.SlotIsFirstRoom | pkg/provider/iso9660.go:436-464 | the search by record lengths finds, in any framed directory, the first place from which the needed bytes lie in one sector behind all its listed records, or there is no such place |
| Iso9660Slot.SlotByListing | pkg/provider/iso9660.go:436-464 | the same of the slot an add finds in a directory of a well-formed image |
| Iso9660Layout.ScanDelete | pkg/provider/iso9660.go:345-352 | after a record's length byte is zeroed the scan lists exactly the records that are not at or behind it in its sector |
| Iso9660Volume.ReadIsView | pkg/provider/iso9660.go:545-563 | reading by path succeeds with a content exactly when the view of the path is that file content |
| Iso9660Volume.ResolveIsLookup | pkg/provider/iso9660.go:207-257 | walking a path from the root with directory reads finds exactly the record that the tree's lookup gives |
| Iso9660Volume.ViewIsLookup | pkg/provider/iso9660.go:207-257 | on a well-formed image the view of every path is that of the record the tree gives for it |
| Iso9660Errors.ReadOutcomes | pkg/provider/iso9660.go:207-297 | reading any path of a well-formed image: the content of a file, the refusal of a directory, and otherwise an error that says whether the path leads through a file or does not exist |
| Iso9660Errors.ResolveErrorIn | pkg/provider/iso9660.go:207-257 | from any directory, resolution fails for the reason that some proper beginning of the path names a file exactly if one does, and else because nothing has the name |
| Iso9660Refinement.AppendEffect | pkg/provider/iso9660.go:309-320 | content appended at the end of the volume reads back and changes no byte in use |
| Iso9660Replace.ReplaceRefines | pkg/provider/iso9660.go:302-342 | replacing the file of a path succeeds for content of any length: exactly the paths equal to it up to case read the new content, every other path and record is as before, the volume grows by the content's sectors, the image stays well-formed |
| Iso9660Replace.ReplaceView | pkg/provider/iso9660.go:302-342 | the same for one path, from the bytes the replacement commits |
| Iso9660ReplaceDir.ReplaceDirectory | pkg/provider/iso9660.go:302-342 | replacing a directory other than the root succeeds, its path stays a directory, every path not under it reads what it read, and those strictly under it are looked up in the new content, so that none is in view if that is empty |
| Iso9660ReplaceDir.ReplaceIff | pkg/provider/iso9660.go:505-513 | a replace of a path in view other than the root never fails, and makes exactly its update if and only if the path is no directory |
| Iso9660ReplaceDir.ResolveAlong | pkg/provider/iso9660.go:207-257 | resolution agrees with the tree's lookup as soon as the directories along the path itself are known |
| Iso9660Add.AddRefines | pkg/provider/iso9660.go:356-479 | adding a fresh name of any length fails exactly when no sector of the parent has room, and then changes no listing and no content; otherwise, for names of at most 107 bytes, one record is inserted, the new path reads the content, every other path reads what it read |
| Iso9660Add.AddCommits | pkg/provider/iso9660.go:356-479 | an add of any name, fresh or listed, commits its content, record and volume size exactly when the parent has a slot |
| Iso9660Add.AddView | pkg/provider/iso9660.go:356-479 | the same for one path and a name of at most 107 bytes, from the bytes the insertion commits |
| Iso9660Add.InsertCommits | pkg/provider/iso9660.go:436-479 | an insertion of any nonempty record writes it at the first slot with room and sets the volume size, or, without a slot, changes nothing in use |
| Iso9660Add.SlotFresh | pkg/provider/iso9660.go:436-464 | no record of any directory starts at the slot found for any nonempty record |
| Iso9660AddAgain.AddAgain | pkg/provider/iso9660.go:356-479 | adding a listed name of any length fails only for lack of a slot, and harmlessly; for names of at most 107 bytes the path then reads the new content exactly when the slot precedes the record it named, paths strictly under it leave the view exactly then, all others are as before; the add makes its update if and only if the slot comes first and nothing lay under the path, or it comes later and the path had the content already |
| Iso9660AddLong.AddListsIff | pkg/provider/iso9660.go:356-479 | an add of any name, fresh or listed, fails harmlessly for lack of a slot, or makes the directory list exactly one record more, of that name, if and only if the name has at most 107 bytes |
| Iso9660AddLong.AddAnyName | pkg/provider/iso9660.go:356-479 | after an add of any name that succeeds, paths not strictly under the directory read what they read; when the record is not seen nothing has changed; when its identifier wraps every listing of the directory crashes and nothing under it is in view |
| Iso9660Layout.ScanAtSlot | pkg/provider/iso9660.go:172-201 | with any bytes in the slot the directory scan crashes if parsing them does, lists what it listed if no record is seen there, and otherwise, if it succeeds, lists the record parsed there |
| Iso9660AddAgain.RecordsInOrder | pkg/provider/iso9660.go:172-201 | listings are in strictly increasing offset order |
| Iso9660Delete.DeleteRefines | pkg/provider/iso9660.go:345-352 | deleting makes exactly the paths through hidden records unreachable, keeps all other listings and every file content |
| Iso9660Delete.LastOfSectorIff | pkg/provider/iso9660.go:172-201 | of a listing in offset order exactly the deleted record is lost if and only if no record follows it in its sector |
| Iso9660Delete.DeleteLosesOneIff | pkg/provider/iso9660.go:345-352 | after the record a path names is deleted, rereading its directory gives the old listing without that record if and only if no listed record follows it in its sector |
| Iso9660PatchDelete.DeleteOpRefines | pkg/provider/iso9660.go:514-521 | a delete operation on a well-formed image: a path in view other than the root is deleted and neither seen nor read again, with exactly the paths through hidden records; a path not in view is an error and changes no byte; deleting `/` succeeds, and every path is seen and read as before |
| Iso9660PatchDelete.LastDelete | pkg/provider/iso9660.go:491-540 | after a list of replaces and adds that succeeds, one more delete succeeds if and only if the path is the root or in the updated map, and has that effect on the image the list made |
| Iso9660PatchDelete.AddThenDelete | pkg/provider/iso9660.go:491-540 | into the empty volume any file with a name of 1 to 107 bytes is added and read, and by one more operation deleted and no longer read |
| Iso9660Example.EmptyVolumeWellFormed | pkg/provider/iso9660.go:41-62 | a volume with an empty root directory is well-formed: the theorems are about images that exist |
| Iso9660Example.FirstFile | pkg/provider/iso9660.go:356-479 | into that volume a file of any name of at most 107 bytes and any content that fits is added and read back |
| Iso9660Example.LongFile | pkg/provider/iso9660.go:356-479 | into that volume every name of 108 to 1003 bytes is added without an error and is not listed; by its length the root lists nothing new or cannot be listed any more |
| Iso9660Example.SubVolumeWellFormed | pkg/provider/iso9660.go:172-201 | a volume whose root lists one subdirectory is well-formed |
| Iso9660Example.DirectoryStays | pkg/provider/iso9660.go:505-513 | on that volume replacing the subdirectory by any content succeeds and its path does not read the content |
| Iso9660Patches.PathKeyOfParts | pkg/provider/iso9660.go:207-222 | a path names its components, with or without a slash before them, and the empty path and `/` the root |
| Iso9660Patches.AddKeyIsPathKey | pkg/provider/iso9660.go:523-533 | an add creates the very path it was given if and only if that is neither the root nor of the form `//name` |
| Iso9660Patches.StepReplaceRoot | pkg/provider/iso9660.go:505-513 | replacing the root succeeds, and no path reads differently |
| Iso9660Patches.StepRefines | pkg/provider/iso9660.go:491-540 | one operation, a replace of anything but a directory below the root or an add of a fresh name that has at most 107 bytes or finds no slot: a success makes exactly its update of the path-to-content map, a failure changes nothing in view |
| Iso9660Patches.PatchesRefine | pkg/provider/iso9660.go:491-540 | any list of such replaces and adds (fresh names of at most 107 bytes, or without a slot): the final view is the original one with the updates of the operations done, all of them or a prefix before the failing one; the image is well-formed and the volume no smaller |
| Iso9660Patches.LastReplaceIff | pkg/provider/iso9660.go:491-540 | after such a list (added names of at most 107 bytes) that succeeds, one more replace of a path in view succeeds, and the whole list then refines its updates if and only if the path named no directory |
| Iso9660Patches.LastAddIff | pkg/provider/iso9660.go:491-540 | after such a list that succeeds, one more add to a directory in view, of any name, fails without effect on the view or makes the directory list exactly one record more, of that name, if and only if the name has at most 107 bytes |
| Iso9660Patches.PatchesReadBack | pkg/provider/iso9660.go:491-563 | after such a list (added names of at most 107 bytes) that succeeds, reading a path gives a content exactly when the updated map does |
| Iso9660File.ParseRockRidgeNM | pkg/provider/iso9660.go:139-169 | the loop over system use entries gives the recursive reading of the NM entries |
| Iso9660File.ParseRecord | pkg/provider/iso9660.go:102-135 | the byte-by-byte parser gives the record the round trips are proved of |
| Iso9660File.FillHeader | pkg/provider/iso9660.go:409-426 | the header writes, two of them overlapping, leave length, extent, zero date and flags, volume 1 and identifier length |
| Iso9660File.CopyNames | pkg/provider/iso9660.go:425-434 | identifier and NM entry, behind the identifier's padding, complete the header to the built record |
| Iso9660File.BuildRecord | pkg/provider/iso9660.go:384-434 | the writes into the zeroed buffer, overlapping ones included, give the record the round trips are proved of |
| Iso9660File.FindEntry | pkg/provider/iso9660.go:225-245 | the first entry, other than dot entries, whose name matches up to case |
| Iso9660File.IsoFile.ReadRange | pkg/provider/iso9660.go:172-176 | a read gives the bytes of the range, or fails when it goes past the end |
| Iso9660File.IsoFile.WriteRange | pkg/provider/iso9660.go:316-336 | a write in place, growing the file when needed |
| Iso9660File.IsoFile.GetPvd | pkg/provider/iso9660.go:41-62 | the descriptor fields, or the error |
| Iso9660File.IsoFile.UpdateVolumeSpaceSize | pkg/provider/iso9660.go:65-70 | only the volume size field changes |
| Iso9660File.IsoFile.ListRecords | pkg/provider/iso9660.go:172-201 | the loop with its jumps to the next sector lists the records of the scan |
| Iso9660File.IsoFile.Resolve | pkg/provider/iso9660.go:207-257 | the loop over path components gives the record of the recursive resolution, or its error |
| Iso9660File.IsoFile.Read | pkg/provider/iso9660.go:288-297 | the content of the record's extent; directories are refused |
| Iso9660File.IsoFile.ReadByPath | pkg/provider/iso9660.go:545-563 | the content whose meaning ReadIsView states |
| Iso9660File.IsoFile.Replace | pkg/provider/iso9660.go:302-342 | the image and result that ReplaceRefines is about |
| Iso9660File.IsoFile.Delete | pkg/provider/iso9660.go:345-352 | the image that DeleteRefines is about |
| Iso9660File.IsoFile.FindFreeSpace | pkg/provider/iso9660.go:436-464 | the loop finds the first slot |
| Iso9660File.IsoFile.AddEntry | pkg/provider/iso9660.go:356-479 | the image and result that AddRefines and AddAgain are about |
| Iso9660File.IsoFile.Insert | pkg/provider/iso9660.go:436-479 | the scan, the record write and the size update that InsertCommits is about, or no write when there is no slot |
| Iso9660File.IsoFile.Apply | pkg/provider/iso9660.go:498-536 | the image and result of one patch operation, those that StepRefines, LastReplaceIff, LastAddIff and DeleteOpRefines are about |
| Iso9660File.IsoFile.ApplyAll | pkg/provider/iso9660.go:491-540 | the image and result that PatchesRefine is about, stopping at the first failure |
| JobInvariant.MutuallyInverse | pkg/provider/job_scheduler.go:107-125 | a reservation's active job is k exactly when k is active on that reservation's host |
| JobInvariant.NoSharedHost | pkg/provider/job_scheduler.go:107-125 | under the invariant no host carries two active jobs |
| JobInvariant.ActiveJobOnline | pkg/provider/job_scheduler.go:127-137 | under the invariant the host of an active job exists and is on |
| JobInvariant.StepKeeps | pkg/provider/job_scheduler.go:38-58 | every tick and every handler keeps the invariant, as long as no runner allowing overflow is created |
| JobInvariant.RunKeeps | pkg/provider/job_scheduler.go:38-58 | every state of every run satisfies the invariant |
| JobInvariant.ScheduleOneKeeps | pkg/provider/job_scheduler.go:80-157 | assigning, or skipping, one job keeps the invariant whichever runner and host the map walks find |
| JobInvariant.TimeoutsKeeps | pkg/provider/job_scheduler.go:186-247 | a timeout check that ends any number of jobs keeps the invariant |
| JobInvariant.PowerOffKeeps | pkg/provider/job_scheduler.go:251-316 | idle power-off never hits a host with an active job |
| JobInvariant.EndJobKeeps | pkg/provider/job_crd.go:381-421 | ending an active job and releasing its reservation keeps the invariant |
| JobInvariant.AgentKeeps | pkg/provider/job_crd.go:507-699 | agent calls keep the invariant |
| JobInvariant.CreateReservationKeeps | pkg/provider/hostreservation_crd.go:171-243 | creating a reservation keeps one reservation per host and the rest of the invariant |
| JobInvariant.DeleteReservationKeeps | pkg/provider/hostreservation_crd.go:311-344 | deleting a reservation, refused while it is busy, keeps the invariant |
| JobPass.PassExact | pkg/provider/job_scheduler.go:61-183 | with one Active runner of the pool, a pass starts exactly min(pending jobs, free reservations, spare slots) of its jobs, and no job left pending comes before a started one in priority and age |
| JobPass.StartsIff | pkg/provider/job_scheduler.go:80-157 | in the middle of a pass a job starts exactly when its pool has a free reservation and a spare slot |
| JobEffects.PassCounts | pkg/provider/job_scheduler.go:61-183 | PassExact in the fields of jobs, reservations and runner alone: how many of the pool's jobs start, and that each has a higher priority number than one left waiting, or the same and is no younger |
| JobEffects.PassEffect | pkg/provider/job_scheduler.go:61-158 | a pass changes a job only by placing it: with an Active runner of its pool, on a host that pool had reserved and free, with that host's address; books exactly the reservations of those hosts; gives exactly those hosts the runner's configuration, its image if it has one, and power; and changes nothing else |
| JobRuns.RunExclusive | pkg/provider/job_scheduler.go:107-125 | in no state of any run do two active jobs have the same host |
| JobRuns.RunOnline | pkg/provider/job_scheduler.go:127-137 | in every state of every run the host of an active job is on |
| JobRuns.TickTimes | pkg/provider/job_scheduler.go:186-247 | after a tick each provisioning or running job is within its limits, and no ended job is left in a reservation |
| JobRuns.GoingSurvivesIff | pkg/provider/job_scheduler.go:186-247 | a provisioning job is untouched by a tick if and only if it was created at most 600 seconds ago, a running one if and only if its run limit, when it has one, is not over and its last heartbeat is at most 90 seconds old |
| JobRuns.GoingEnds | pkg/provider/job_scheduler.go:186-247 | otherwise the tick fails it for the provisioning limit, times it out for the run limit, or else fails it for the heartbeat, and stamps the time; no other field changes |
| JobRuns.ScheduledSurvivesIff | pkg/provider/job_scheduler.go:186-202 | a pending job that a tick schedules is provisioning after that tick if and only if it was created at most the provisioning limit ago, and has failed otherwise |
| JobRuns.OverdueJobsNeverStart | pkg/provider/job_scheduler.go:186-202 | whatever a tick does with a pending job older than the limit, it ends unchanged or failed |
| JobExamples.OverdueJobFails | pkg/provider/job_scheduler.go:186-202 | a reachable state in which one tick both schedules and fails a job |
| JobRuns.StepAdvances | pkg/provider/job_crd.go:381-407 | no step moves a job back a phase or changes an ended job |
| JobRuns.RunAdvances | pkg/provider/job_crd.go:507-699 | between any two moments of a run through which a job exists its phase only advances, and its result stays once it has ended |
| JobRuns.AgentDeterministic | pkg/provider/job_crd.go:507-699 | an agent call has the same effect whatever order the maps are walked in |
| JobRuns.OneCandidate | pkg/provider/job_crd.go:507-699 | at most one job answers to an agent call from a host |
| JobRequests.AgentExact | pkg/provider/job_crd.go:507-699 | a call from the host of an active job: the first work request starts it and stamps start and heartbeat, heartbeats and logs of a running job renew the heartbeat, a completion ends it Completed if the exit code is 0 and Failed otherwise and frees its reservation; nothing else changes |
| JobRequests.AgentIgnored | pkg/provider/job_crd.go:507-699 | calls from unknown addresses and from hosts without a job under way change nothing |
| JobRequests.CancelExact | pkg/provider/job_crd.go:381-421 | exactly the jobs that have not ended are cancelled, and the reservation they hold becomes free |
| JobRequests.CreateJobExact | pkg/provider/job_crd.go:212-268 | a complete request for a pool with some runner makes one pending job under namespace and name; deleting it again gives the old state, creating it again changes nothing; any other request changes nothing |
| JobRequests.DeleteJobExact | pkg/provider/job_crd.go:336-377 | exactly the jobs not under way can be deleted |
| JobRequests.CreateReservationExact | pkg/provider/hostreservation_crd.go:171-243 | a known host that is not reserved is reserved under a new key, free; deleting that gives the old state |
| JobRequests.DeleteReservationExact | pkg/provider/hostreservation_crd.go:311-344 | exactly the reservations no job holds can be deleted |
| JobRequests.CreateRunnerExact | pkg/provider/jobrunner_crd.go:263-310 | a runner with pool and known boot configuration is created Active under a new name; deleting it again gives the old state if no job names it |
| JobRequests.DeleteRunnerExact | pkg/provider/jobrunner_crd.go:372-409 | exactly the runners without jobs under way can be deleted |
| JobRequests.TickPower | pkg/provider/job_scheduler.go:251-352 | after a tick a host is on if and only if a pool on duty has it free, or it was on after the pass and no pool that reclaims its hosts, is off duty and has been quiet for its idle timeout has it free |
| JobRequests.TickReleases | pkg/provider/job_scheduler.go:186-247 | a tick frees exactly the reservations of the jobs it ends |
| JobOverflow.ScheduleExclusiveIff | pkg/provider/job_scheduler.go:80-183 | a pending job's turn leaves hosts exclusive, whichever runner and host are found, if and only if no host that a runner of its pool below capacity may be offered carries an active job |
| JobOverflow.OfferedExact | pkg/provider/job_scheduler.go:80-183 | a runner offers a host, in the fields alone: it is Active, serves the pool and is below its limit, and the host has an Active free reservation of the pool, or the pool has none, overflow is allowed and the host is known and not reserved |
| JobOverflow.TurnOffers | pkg/provider/job_scheduler.go:80-183 | a turn assigns an offered host or changes nothing |
| JobOverflow.OfferTaken | pkg/provider/job_scheduler.go:80-183 | every offered host may be the one that is assigned |
| JobOverflowPass.PassExclusiveIff | pkg/provider/job_scheduler.go:61-183 | a whole pass leaves hosts exclusive, whatever it finds, if and only if before it no busy host is a free one of a pool with a waiting job and a runner below capacity, no unreserved host is busy if some pool may overflow, and there is no unreserved host if pools may overflow twice |
| JobOverflowSafe.SafePass | pkg/provider/job_scheduler.go:61-183 | from such a state every pass keeps hosts exclusive |
| JobOverflowUnsafe.BusyFreeUnsafe | pkg/provider/job_scheduler.go:61-183 | if a busy host is free for a waiting job's pool, some pass gives it away |
| JobOverflowUnsafe.BusySpareUnsafe | pkg/provider/job_scheduler.go:61-183 | if an unreserved host is busy and a pool may overflow, some pass gives it away |
| JobOverflowUnsafe.TwiceUnsafe | pkg/provider/job_scheduler.go:61-183 | if pools may overflow twice, some pass gives any one unreserved host to two jobs |
| JobOverflowPass.ReachableNamed | pkg/provider/job_scheduler.go:38-58 | in every reachable state, overflow runners or not, each reservation names a host, no two the same, and no job has an empty key |
| JobOverflow.BusyHostReserved | pkg/provider/hostreservation_crd.go:171-243 | when a busy unreserved host is reserved for a pool, any runner of the pool below capacity may give it to a second job, overflow allowed or not |
| JobExamples.OverflowShares | pkg/provider/job_scheduler.go:161-183 | a reachable state with an overflow runner from which one pass gives one host to two jobs |
| JobExamples.ReservedHostShares | pkg/provider/job_scheduler.go:161-183 | a reachable state in which hosts are exclusive and a tick of a pool without overflow gives one host to two jobs |
| JobProvider.Provider.PendingQueue | pkg/provider/job_scheduler.go:62-78 | all pending jobs, each once, higher priority first and older first |
| JobProvider.Provider.FindRunner | pkg/provider/job_scheduler.go:81-91 | some Active runner of the pool, or none exists |
| JobProvider.Provider.CountActive | pkg/provider/job_scheduler.go:93-105 | the number of the pool's active jobs |
| JobProvider.Provider.FindAvailableHost | pkg/provider/job_scheduler.go:161-183 | some available host of the pool, or none exists |
| JobProvider.Provider.ScheduleJob | pkg/provider/job_scheduler.go:80-157 | one job's turn: a step of ScheduleOne, for any order of the map walks |
| JobProvider.Provider.AssignHost | pkg/provider/job_scheduler.go:113-149 | the reservation, the host and the job all change as one assignment, the only one that AssignKeeps allows |
| JobProvider.Provider.MarkReservation | pkg/provider/job_scheduler.go:118-125 | the host's one reservation gets the job, all others stay |
| JobProvider.Provider.PowerUp | pkg/provider/job_scheduler.go:127-145 | the named host is configured and switched on, its address goes to the job, all other hosts stay |
| JobProvider.Provider.SchedulePendingJobs | pkg/provider/job_scheduler.go:61-158 | the whole pass that PassExact and PassEffect are about |
| JobProvider.Provider.ReleaseJobHost | pkg/provider/job_crd.go:410-421 | clears the job from its host's reservation and changes nothing else |
| JobProvider.Provider.CheckTimeouts | pkg/provider/job_scheduler.go:186-247 | each of the three checks ends and releases exactly the overdue jobs; which jobs of a tick those are is GoingSurvivesIff and GoingEnds |
| JobProvider.Provider.PoolIdle | pkg/provider/job_scheduler.go:262-288 | true exactly when the pool has no work, some job of it has completed, and none within the idle timeout |
| JobProvider.Provider.SwitchFreeHosts | pkg/provider/job_scheduler.go:290-314 | exactly the hosts of the pool's free reservations are switched |
| JobProvider.Provider.CheckIdleRunners | pkg/provider/job_scheduler.go:251-316 | switches off exactly the free hosts of the pools reclaimed now |
| JobProvider.Provider.EnsureScheduledHostsOnline | pkg/provider/job_scheduler.go:319-352 | switches on exactly the free hosts of the pools whose runner is on duty |
| JobProvider.Provider.SchedulerTick | pkg/provider/job_scheduler.go:38-58 | one tick, as the run lemmas take it |
| JobProvider.Provider.HandleCreateJob | pkg/provider/job_crd.go:212-268 | a new pending job, or nothing when the request is refused, as CreateJobExact states |
| JobProvider.Provider.HandleDeleteJob | pkg/provider/job_crd.go:336-377 | removes the job unless it is active or unknown |
| JobProvider.Provider.HandleCancelJob | pkg/provider/job_crd.go:381-407 | ends a job that has not ended and releases its host, as CancelExact states |
| JobProvider.Provider.FindHostByIP | pkg/provider/job_crd.go:513-520 | some host with the caller's address, or none exists |
| JobProvider.Provider.FindJobOn | pkg/provider/job_crd.go:527-548 | some job of that host in a phase the call looks for, or none exists |
| JobProvider.Provider.HandleAgent | pkg/provider/job_crd.go:507-699 | finds host and job by the caller's address and moves that job on, as AgentExact states |
| JobProvider.Provider.HandleCreateReservation | pkg/provider/hostreservation_crd.go:171-243 | a free reservation of a known, unreserved host, or a refusal |
| JobProvider.Provider.HandleDeleteReservation | pkg/provider/hostreservation_crd.go:311-344 | removes the reservation unless it is busy or unknown |
| JobProvider.Provider.HandleCreateRunner | pkg/provider/jobrunner_crd.go:263-310 | a new runner, or a refusal |
| JobProvider.Provider.HandleDeleteRunner | pkg/provider/jobrunner_crd.go:372-409 | removes the runner unless its jobs are active or it is unknown |
| BootOrder.Walk.Visit | pkg/lifecycle/manager.go:645-662 | terminates on every graph; appends what it visits after its dependencies, without repeats, and only what the visited unit leads to; of two dependencies the first listed comes first unless what was visited before, or an earlier one, leads to the second |
| BootOrder.SortByPriority | pkg/lifecycle/manager.go:641-643 | a permutation in order of priority |
| BootOrder.TopoSort | pkg/lifecycle/manager.go:640-669 | each unit exactly once; each registered dependency d of u before u unless d leads back to u; if u precedes v, a unit of priority at most v's leads to u; a unit's own dependencies in the order that StartAsListed states |
| BootOrder.BootSequence | pkg/lifecycle/manager.go:163-173 | the same for all registered units, whatever order the map is walked in |
| BootOrder.AcyclicFullyOrdered | pkg/lifecycle/manager.go:640-669 | without cycles every dependency comes before its dependents |
| BootOrder.IndependentByPriority | pkg/lifecycle/manager.go:640-669 | a unit that no other leads to never precedes one with a smaller priority number |
| BootOrder.StartAsListed | pkg/lifecycle/manager.go:640-669 | two dependencies of a unit start in the order in which it lists them, unless the first or one listed before it leads to the second, or a unit of priority no later than the unit's own does |
| Watchdog.RunKept | pkg/lifecycle/manager.go:239-357 | over every run since registration restarts are at least the cooldown apart, all are counted, and probes and health checks cause at most the limit of them, whatever is found |
| Watchdog.CheckKept | pkg/lifecycle/manager.go:239-357 | one round keeps that |
| Watchdog.LimitIsFinal | pkg/lifecycle/manager.go:506-553 | once the limit is reached no probe or health check restarts the unit again |
| WatchdogRounds.RoundRestarts | pkg/lifecycle/manager.go:239-553 | one round, in the unit's fields and the findings: keepalive restarts if and only if a unit to be kept up is found stopped, can be started, is not failed and has cooled down; a probe or health check does if and only if a due startup or liveness probe fails and reaches its threshold, or health turns bad, the policy allows it (not asked for a startup probe), the limit is not reached and the cooldown is over; the log, the count and the stamp grow by just these |
| WatchdogRounds.RoundFields | pkg/lifecycle/manager.go:239-553 | every other field of the unit after a round, by the same findings: status, health, readiness, startup and the three probes' counts |
| WatchdogRounds.FailingUnit | pkg/lifecycle/manager.go:239-553 | a unit whose liveness probe fails in every round is restarted min(limit, rounds / threshold) times over any number of rounds, and is failed exactly when the limit is exceeded |
| Watchdog.Manager.Register | pkg/lifecycle/manager.go:119-137 | the unit starts healthy, ready and running, its startup complete unless it has a startup probe to pass, with an empty restart history; all others stay |
| Watchdog.Manager.Unregister | pkg/lifecycle/manager.go:140-146 | removes that unit only |
| Watchdog.Manager.CheckAll | pkg/lifecycle/manager.go:239-357 | every registered unit gets exactly one round, in any order |
| Watchdog.Manager.CheckUnit | pkg/lifecycle/manager.go:245-355 | the round that CheckKept, RoundRestarts and RoundFields are about: keepalive, then the startup probe or else health and readiness |
| Watchdog.Manager.DoKeepalive | pkg/lifecycle/manager.go:360-385 | at most one restart, which the limit does not hold back; a failed unit is left alone |
| Watchdog.Manager.DoRestart | pkg/lifecycle/manager.go:506-543 | at the limit the unit only becomes failed; otherwise the count grows exactly with the restarts, by at most one; when it restarts in a round is RoundRestarts |
| Watchdog.Manager.DoUnhealthy | pkg/lifecycle/manager.go:545-553 | no restart at the limit or under a policy other than Always and OnFailure |
| Watchdog.Manager.RunStartup | pkg/lifecycle/manager.go:251-288 | no restart at the limit or when the probe succeeds; only a success completes the startup |
| Watchdog.Manager.RunLiveness | pkg/lifecycle/manager.go:291-321 | no restart at the limit, on success, or before the threshold of failures in a row |
| Watchdog.Manager.RunLegacy | pkg/lifecycle/manager.go:454-467 | the unit takes the health found; without a change of health nothing else happens |
| Watchdog.Manager.RunReadiness | pkg/lifecycle/manager.go:327-355 | changes nothing but the ready flag and the readiness probe's own state |
| DnsAnswer.AnsweredIff | pkg/provider/dns_smoketest.go:273-336 | on every encoded response, of any questions and answers with any compression pointers and anything behind them, the check succeeds if and only if the response code is 0 and some answer is an A record of 4 bytes with the expected address |
| DnsAnswer.AnsweredExactly | pkg/provider/dns_smoketest.go:273-336 | on arbitrary bytes, truncated and malformed ones included, it succeeds if and only if they begin with the announced questions and with answers among which one has the address |
| DnsAnswer.NameOkSkippable | pkg/provider/dns_smoketest.go:340-364 | names of labels of 1 to 63 bytes, ended by the root or a pointer, are among those the code steps over |
| DnsAnswer.SkipLabels | pkg/provider/dns_smoketest.go:340-364 | stepping over an encoded name ends exactly at its end |
| DnsAnswer.NameAt | pkg/provider/dns_smoketest.go:340-364 | whatever is stepped over inside the buffer is the encoding of a name |
| DnsAnswer.SkipDNSName | pkg/provider/dns_smoketest.go:340-364 | the loop ends on every buffer, never reads outside it, and computes the offset the lemmas are about |
| DnsAnswer.ParseDNSAAnswer | pkg/provider/dns_smoketest.go:273-336 | the loops never read outside the buffer and compute the answer the lemmas are about |
| DnsAnswer.BuildDNSAQuery | pkg/provider/dns_smoketest.go:243-269 | header, each nonempty label behind its length cut to a byte, the root, type A and class IN, for every name: the query that QueryNames and QueryJoinsBack are about |
| DnsAnswer.QueryIsOneQuestion | pkg/provider/dns_smoketest.go:243-269 | for labels of at most 63 bytes the query is a standard one that asks for recursion, announces and holds exactly one question for the host's address and nothing else, and stepping over it ends at the query's end |
| DnsAnswer.QueryReadsBackIff | pkg/provider/dns_smoketest.go:243-269 | read as section 4.1.2 of RFC 1035 says, the question's name has exactly the host's labels if and only if none is longer than 63 bytes |
| DnsQuery.QueryNames | pkg/provider/dns_smoketest.go:243-269 | for a host name of any dotless parts with dots between them the question's name is the nonempty parts, in order, if and only if none is longer than 63 bytes |
| DnsQuery.QueryNamesHost | pkg/provider/dns_smoketest.go:243-269 | for nonempty labels, a dot at the end or not, it is just these labels under the same condition |
| DnsQuery.QueryJoinsBack | pkg/provider/dns_smoketest.go:243-269 | for a host name without a leading or a double dot and without dotless stretches over 63 bytes, the labels read from the query hold no dot and, with dots between them, give the name again |
| DnsQuery.EmptyPartIgnored | pkg/provider/dns_smoketest.go:243-269 | an empty part anywhere makes no difference to the query |
| DnsQuery.PartsOf | pkg/provider/dns_smoketest.go:243-269 | every host name is dotless parts with dots between them |
| FullSync.LoneResync | pkg/cluster/sync.go:236-311 | both sides end equal on all synced buckets with every key of either side and the initiator's value in conflicts; other buckets stay |
| FullSync.RepeatIsNoOp | pkg/cluster/sync.go:236-311 | a repeat from either side changes nothing |
| FullSync.ImportedBuckets | pkg/cluster/sync.go:200-233 | an import takes entries of fifteen buckets, of which a node sends ten: a payload that names jobs, runners, reservations, job logs or node states overwrites them |
| FullSync.CrossingConverges | pkg/cluster/sync.go:200-311 | under every interleaving of the two sides' reads and writes of single keys, once one resync is over both key sets are the union, and every key not in dispute has the same value on both |
| FullSync.CrossingConvergesIff | pkg/cluster/sync.go:200-311 | all complete interleavings end with equal stores if and only if no key was in dispute |
| FullSync.CrossedSwaps | pkg/cluster/sync.go:200-311 | two resyncs in step leave every key in dispute with its values swapped |
| FullSync.ReachesCrossed | pkg/cluster/sync.go:200-311 | that end is reached by a run of single-key steps, from any two stores |
| FullSync.LoneRunIsResync | pkg/cluster/sync.go:236-311 | run key by key in any order, one resync that no other crosses ends as the single call |
| FullSync.StepKeeps | pkg/cluster/sync.go:200-311 | each read or write of one key invents no value, loses no key and leaves no key behind |
| FullSync.Store.BuildPayload | pkg/cluster/sync.go:313-345 | the loops collect exactly the entries of the synced buckets |
| FullSync.Store.HandleFullSyncImport | pkg/cluster/sync.go:200-233 | every entry of a known bucket is written over what was there, whatever the order, and counted |
| FullSync.Store.FullResyncWithPeer | pkg/cluster/sync.go:236-311 | both stores change as LoneResync states |
| DnsBatch.CacheFaithfulIff | pkg/dns/client.go:112-173 | batches leave all zones and all results as the calls mean them, for all zone contents and all call sequences naming the given zones, if and only if no zone shares its cache key with a reachable one and none missing shares its endpoint with a reachable one |
| DnsBatch.PlainIdsSafe | pkg/dns/client.go:112-173 | zone ids without a colon, on servers that have all the zones or are down, are always safe |
| DnsBatch.KeyInjective | pkg/dns/client.go:131-150 | endpoint and zone can be read back from the cache key when zone ids have no colon |
| DnsBatch.SharedKey | pkg/dns/client.go:131-150 | with a shared key, a registration in the second zone is taken for done |
| DnsBatch.MissingZone | pkg/dns/client.go:139-173 | after a missing zone, a registration in another zone of the endpoint is skipped |
| DnsBatch.DoIsMeant | pkg/dns/client.go:262-457 | one call, cached or not: the zones and the result are as meant and the cache again agrees with the servers |
| DnsBatch.SweepIsKeep | pkg/dns/client.go:379-457 | deleting one by one by the ids of the zone's own list leaves exactly the other records, in order |
| DnsBatch.MeantAddresses | pkg/dns/client.go:262-457 | a successful call changes the host's set of addresses as its name says, and no other record and no other zone |
| DnsBatch.RegisterExact | pkg/dns/client.go:262-313 | a registration leaves the servers as they are if the host has the address; else it appends one A record with that name, address and ttl to the zone and nothing else; in a zone that cannot be reached it fails |
| DnsBatch.RegisterTwice | pkg/dns/client.go:262-313 | registering again, with whatever ttl, succeeds and changes nothing |
| DnsBatch.RemoveExact | pkg/dns/client.go:379-457 | the other calls remove every A record of the host that they name, by address or not, keep every other record as often as it was there and in order, and touch no other zone |
| DnsBatch.OutsideBatch | pkg/dns/client.go:112-173 | outside a batch nothing is cached or blacklisted, and the end of a batch forgets everything |
| DnsBatch.DownIsSkipped | pkg/dns/client.go:139-173 | in a batch a blacklisted endpoint is asked no more by any call, and a call that finds an endpoint down blacklists it |
| DnsBatch.SweepStops | pkg/dns/client.go:379-457 | removing by any list of distinct ids, outdated or of another zone: the records before the first one that is gone are removed and there the call fails, except that cleaning up goes on and never fails |
| DnsBatch.CachedSweep | pkg/dns/client.go:379-457 | the same of a call that trusts its cached list; it forgets the list only after a success that removed something |
| DnsBatch.Client.BeginBatch | pkg/dns/client.go:112-118 | caching starts with nothing cached and nothing blacklisted, and asks no server |
| DnsBatch.Client.EndBatch | pkg/dns/client.go:121-127 | caching is off, with nothing cached and nothing blacklisted, and no server is asked |
| DnsBatch.Client.ListRecords | pkg/dns/client.go:336-376 | the pages together are the zone's whole list for every length, multiples of 100 included |
| DnsBatch.Client.ListRecordsCached | pkg/dns/client.go:139-173 | the cached list, or a fresh one that is then cached, or a failure that is then remembered |
| DnsBatch.Client.InvalidateCache | pkg/dns/client.go:131-135 | forgets that zone's list only |
| DnsBatch.Client.RegisterHost | pkg/dns/client.go:262-313 | the call that DoIsMeant and RegisterExact are about, its early return on a listed record included |
| DnsBatch.Client.DeregisterHost | pkg/dns/client.go:379-400 | the call that DoIsMeant, RemoveExact and CachedSweep are about, stopping at a failed delete |
| DnsBatch.Client.DeregisterHostByIP | pkg/dns/client.go:406-427 | the call that DoIsMeant, RemoveExact and CachedSweep are about, stopping at a failed delete |
| DnsBatch.Client.CleanStaleRecords | pkg/dns/client.go:432-457 | the call that DoIsMeant, RemoveExact and CachedSweep are about, going on after a failed delete |

## Left out

- Iso9660Patches.PatchesRefine: deletes are not part of the lists, because a delete also hides later records and breaks the layout the other edits rely on; a delete on a well-formed image is DeleteOpRefines, and one more delete after a list is LastDelete.
- Iso9660Patches.PatchesRefine: replaces of directories below the root are not part of the lists, because the claim is false of them; ReplaceIff and LastReplaceIff say exactly when it holds.
- Iso9660Patches.PatchesRefine: adds of listed names, and of names longer than 107 bytes that find a slot, are not part of the lists, because the claim is false of them; AddAgain, AddAnyName and LastAddIff say what such an add does and exactly when it lists its name.
- Iso9660AddLong.AddAnyName: for the lengths at which other records are read from the bytes of a long name's record, which records these are is not described.
- Bytes.Upper: case folding and upper-casing are those of ASCII; other letters are left alone, where the code's upper case can be longer than the name, so that the 107-byte bound is one for names whose upper case is the ASCII one.
- JobRuns.RunExclusive: runs with an overflow runner are excluded, because the claim is false of them (OverflowShares, ReservedHostShares); ScheduleExclusiveIff and PassExclusiveIff say exactly when one turn and one pass keep it.
- BootOrder.TopoSort: units are registered under their own names; starting them and waiting for their health is not modelled.
- Watchdog.Manager.CheckAll: probe networking, container stop and start results, the failure callback and the last-check stamp are not modelled; what a check finds is a parameter.
- FullSync.Store.FullResyncWithPeer: failed requests, local writes during a resync and JSON encoding are not modelled.
- DnsBatch.CacheFaithfulIff: each endpoint is up or down for a whole run; requests that fail only sometimes, bare deletes by callers and the other record types are not modelled.
- ISO image write errors, copying an image, and the two listing functions for directories.
- The HTTP layer: JSON decoding, status codes, table output and watch streams.
- The NATS store: persistence always succeeds.
- PUT and PATCH of jobs, reservations and runners, and a client-supplied status on create: they overwrite state freely.
- Creation and deletion of bare-metal hosts; host names and addresses are distinct and an unset power flag counts as off.
- Parsing of clock times in work schedules: a schedule is a function from the time to on or off; times are whole seconds.
- Error texts of jobs: a value that names the reason stands for each.
- Data races between goroutines: handlers, ticks and checks are atomic.
- Single-key sync events pushed on local writes, whose order and time stamps the code does not use.
- DHCP, forwarders and full-record calls of the DNS client; EnsureZone.
- The VMID allocator, job log storage, statistics, the network manager and deployments: easy or not closed over this code.
