# Proofs about the backup pipeline, the achievements protocol and two small readers

A Dafny 4.11 model of four parts of the plugin collection, and proofs about it. Check it
with `dafny verify dfyconfig.toml`.

**The backup pipeline** (`backup/`). An index pass walks the declared asset classes, re-reads
a file only when its stat key changed, it is suspect or it is due, and stamps rows of a table
of generation intervals. A planner groups a sealed generation into packs, a hand-written
STORED-ZIP writer (PKWARE APPNOTE sections 4.3.7, 4.3.12 and 4.3.16) streams a pack from any
offset, and a two-generation cache sits in front of planning. The main result is
`Recovery.ManifestRestoresCorpus`: fetching the packs a manifest names gives back exactly the
files the sealed pass recorded, byte for byte. The pieces below it are stated on their own.

**The daily dump** (`backup/dbdump.go`): what a run leaves behind for every way it can end,
and over any number of runs.

**The achievements protocol** (`achievements/`). Web and worker threads interleave call by
call; every store statement is one step, the rewards engine is a set of grants keyed by
(reward, member, reference), any call may fail before or after taking effect, a thread may die
between any two calls, and administrators edit definitions meanwhile. `PayRuns.ExactlyOnce`
holds of every reachable state; `RewardEdit.EditIsSafeExactlyWhen` says exactly which edits of
a reward keep it.

**Two readers**: the greedy `*` matcher of the newsgroup gate and the mountinfo reader.

## How it is laid out

| files | what they hold |
|---|---|
| `Basics` | bytes, options, byte-order comparison |
| `Zip`, `Planner`, `PlanStability`, `EditReach`, `RowOrder`, `PackWriter`, `Transfer`, `Resume`, `PackIdentity` | the archive format and a reader for it, planning, how far an edit reaches, row order, the writers as classes, resuming, identifiers |
| `Inventory`, `Classes`, `FileCheck`, `HashSpread`, `IndexPass`, `Snapshots`, `StatGate`, `BitRot`, `IndexJob`, `LossReports` | the tables as a class, the pass as loops over it, what the tables answer afterwards, which files are read when |
| `ManifestCache`, `ManifestOrder`, `ServedHistory`, `Recovery`, `Accounting` | the cache as a class, when it may be trusted, the end-to-end results |
| `Stamps`, `DumpRetention` | the dump directory as a class and its runs |
| `AchievementRows`, `MemStore`, `Shares`, `Columns`, `Repaying`, `Handlers` | the SQL statements as functions, the in-memory store and the event handlers as classes proved against them, and what they do to each row, read off its columns |
| `Protocol`, `Definitions`, `PayOnce`, `PaySteps`, `PayRuns`, `RewardEdit`, `Announcing`, `Silence`, `RepairSweep` | the step relation, what gets into the catalogue, its invariant, every action, runs, edits of rewards, what is announced, the sweep over many ticks |
| `Glob`, `Mountinfo` | the two readers |

Code that changes things in place is modelled by classes and loops whose `ensures` equate the
new state with a specification function; the lemmas are about those functions. A peer that
hangs up, a store call that fails and a process that is killed are choices of the
environment, over which every statement quantifies. SHA-256, CRC-32 and the pack fingerprint
are functions passed in, about which nothing is assumed unless a lemma says so.

## Where the code and its comments differ

The model follows the code.

- `backup/index_job.go:17-25` and `backup/README.md:144-148` speak of refusing to seal a
  shrunk generation. The pass seals
  (`backup/inventory.go:453`) before the gate runs (`backup/index_job.go:68`) and nothing
  unseals, so a reported generation is the newest sealed one and is served
  (`IndexJob.RunIndex`), and its loss is not reported again (`LossReports.LossIsReportedOnce`).
- `backup/manifest.go:26-31` promises that an edit touches one pack. That is so for every edit
  that keeps the size (`PlanStability.SameSizeEditChangesOnePack`), and for one that changes it
  exactly when three local conditions hold (`EditReach.OnePackExactlyWhen`); two edits under the
  shipped limits break it (`EditReach.ShrinkingRegroups`, `EditReach.ShrinkingMovesBack`).
- A generation is not frozen by its seal: a row stamped again after a gap is retroactively in
  the generations of the gap (`Snapshots.RestoredContentRewritesHistory`), and exactly such
  rows are (`Snapshots.StableIffNothingRevived`).
- `upsertFiles` leaves `class` alone on conflict, so a file that moves to another class is
  served under its first one (`Snapshots.ServedUnderClassIffStored`).
- `planPacks` keeps the first row it sees for a path, and `filesForGen` orders by path alone,
  so with two different rows for a path, and only then, the plan depends on the order of the
  answer (`RowOrder.OrderMattersExactlyWhen`).
- `achievements/README.md:21` says at-least-once plus idempotent equals exactly once. The
  granter is idempotent on (reward, member, reference), so an edit of the reward between grant
  and stamp makes the sweep pay the new one too (`RewardEdit.EditedBeforeStampPaysTwice`).
- With `keep` set to 1 no room is made before a dump (`backup/dbdump.go:132`), and crashes
  between publishing and pruning accumulate (`DumpRetention.KeepOneRatchets`); the volume is
  bounded exactly for 2 and more (`DumpRetention.BoundedExactlyWhen`).
- The repair sweep takes the 500 oldest rows and does not write to a refused one, and progress
  writes re-date the rows of counted definitions, and no others, between sweeps. Which payable
  rows are paid whatever the writes do, and which never, is exact: `RepairSweep.DrainsExactlyWhen`,
  `RepairSweep.NeverPaidExactlyWhen`, read off the tables in `RepairSweep.TablesDrainExactlyWhen`.
  With 500 refused rows both happen (`RepairSweep.OlderPrizeIsPaid`,
  `RepairSweep.TriggerBadgesStarve`).
- A completion by event is announced exactly if a metric pass over the achievement had ended
  (`Announcing.AnnouncedExactlyWhenPassEnded`). One with no `MetricSource` has no passes, so its
  completions stay silent for good (`Silence.UnscoredStaysSilent`, `Announcing.CompletedInSilence`).
- `plansFor` does not look at whether a generation is sealed. An answer given at any time stays
  good exactly as long as nothing is revived and the generation's own pass records no new key
  (`ServedHistory.ReadsSameExactlyWhen`), so one asked for while its pass runs may be remembered
  half-built (`ServedHistory.UnsealedAnswersGoStale`), and a sealed one cannot grow
  (`ServedHistory.SealedRequestsServedTruly`).
- A raw pack is served without a look at its hash (`backup/pack.go:421-441`), so a resumed one
  can be stitched from two contents (`Resume.RawResumeExactlyWhen`); a zipped one cannot
  (`Resume.ZippedResumeAssembles`).

## Model

| member | source | states |
|---|---|---|
| `Zip.RoundTrip` | backup/pack.go:186-337 | A reader that goes from the end record to the directory to the local headers, and takes a name only if bit 11 says it is UTF-8, gets back exactly the ordered (path, bytes) list of any archive whose fields fit their widths |
| `Zip.DataAtOffset` | backup/pack.go:276-277 | The offset recorded for member i is where its bytes lie in the finished archive |
| `Zip.ReadEntryAt` | backup/pack.go:257-287 | From the i-th directory record the reader reaches the i-th local record and its content, checksum included |
| `Zip.ReadEntriesFrom` | backup/pack.go:297-321 | Reading on from any directory record gives the rest of the entries in order |
| `Zip.ReadEocd` | backup/pack.go:324-335 | The end record is found by scanning and gives back count, directory size and directory offset |
| `Zip.U16RoundTrip` | backup/pack.go:462 | Two little-endian bytes read back as the value below 2^16 they were written from |
| `Zip.U32RoundTrip` | backup/pack.go:463-465 | Four little-endian bytes read back as the value below 2^32 they were written from |
| `Zip.LocalAt` | backup/pack.go:272-287 | Each local record begins where the bytes before it end |
| `Zip.CentralAt` | backup/pack.go:297-321 | Each directory record lies after the records before it |
| `Zip.LocalHeaderLayout` | backup/pack.go:257-276 | Every field of a local header lies at its offset, bit 11 (names are UTF-8) included |
| `Zip.LocalFixedFields` | backup/pack.go:257-276 | The fields of a local header that do not depend on the member, byte by byte |
| `Zip.CentralFixedFields` | backup/pack.go:297-321 | The same of a directory record, file attributes included |
| `Planner.PlanPacks` | backup/pack.go:102-155 | The packs of a class are a next-fit grouping of its path-sorted, first-per-path rows, with the limits defaulted when not positive and every total filled in |
| `Planner.SelectAndSort` | backup/pack.go:109-118 | Sorted strictly by path, the first row for every path and nothing else |
| `Planner.AddTotals` | backup/pack.go:147-153 | Each pack carries the sum of its member sizes |
| `Planner.Flush` | backup/pack.go:126-132 | A non-empty open pack is appended and a new one begun; an empty one is not emitted |
| `Planner.SortByPathSorts` | backup/pack.go:118 | The sort loses and invents nothing and is ascending |
| `Planner.FirstPerPathIs` | backup/pack.go:109-117 | Exactly the first row of every path survives, in order |
| `Planner.CatalogueUnique` | backup/pack.go:109-118 | One list of rows has one sorted, first-per-path list |
| `Planner.NextFitUnique` | backup/pack.go:133-145 | A member list has exactly one next-fit grouping |
| `PlanStability.PlanUnique` | backup/pack.go:102-155 | A list of rows has exactly one plan, so planning is a function of the rows |
| `PlanStability.PlanIgnoresOrder` | backup/pack.go:102-155 | When no path repeats, the order rows arrive in does not change the plan |
| `PlanStability.PackCountBound` | backup/pack.go:133-145 | At most floor(2*total/target) + floor(n/max) + 1 packs |
| `PlanStability.CountBoundaries` | backup/pack.go:138-145 | Every boundary is forced by the size or by the member limit, and each kind is paid for |
| `PlanStability.SameSizeEditChangesOnePack` | backup/manifest.go:26-33 | An edit that keeps the size of a file changes exactly one pack of its class |
| `PlanStability.FlushedPacksUnchanged` | backup/pack.go:138-145 | Every pack flushed before the first differing file is unchanged, whatever the edit |
| `PlanStability.SharedBoundaryResynchronises` | backup/pack.go:138-145 | Once two plans end a pack at the same later file, all packs after it coincide |
| `EditReach.OnePackExactlyWhen` | backup/manifest.go:26-33 | Any edit of one file, of its hash or its size, leaves all packs of the class but one as they were if and only if the edited pack still holds its members, its first member still has no room in the pack before and the first member of the pack after has none in it |
| `EditReach.OneGroupExactlyWhen` | backup/pack.go:138-145 | The same for the grouping itself |
| `EditReach.ShrinkingRegroups` | backup/manifest.go:26-33 | Under the shipped limits: three files of just over half, half and half the target, the first losing a byte, and both packs change |
| `EditReach.ShrinkingMovesBack` | backup/manifest.go:26-33 | Under the shipped limits: the second of two files shrinks into the room the first pack has left, and one pack remains |
| `RowOrder.OrderMattersExactlyWhen` | backup/inventory_store.go:331-355 | All answers sorted by path alone give one plan if and only if no path has two different rows |
| `RowOrder.PlanExists` | backup/pack.go:102-155 | Every list of rows has a plan |
| `RowOrder.SameRowsSamePlans` | backup/pack.go:109-118 | Planning depends on the rows, not on how they are listed, when paths agree |
| `PackWriter.SkipWriter.Write` | backup/manifest.go:293-305 | Whatever the chunks, the first `remaining` bytes are dropped, the rest forwarded, and every write reports its full length |
| `PackWriter.CountingWriter.Write` | backup/pack.go:474-478 | The count is the number of bytes written since the start, and what lies past the skip has arrived |
| `PackWriter.CountingWriter.Copy` | backup/pack.go:282-285 | Any chunking of a file has the effect of one write of all of it |
| `PackWriter.WritePack` | backup/pack.go:186-337 | Against any peer: the peer holds exactly the part of the one stream past the skip and within its budget; the answer is the refusal in order of the checks, or the members with checksum and offset and the total length |
| `PackWriter.WriteRawPack` | backup/pack.go:421-441 | A lone member over the 32-bit limit is sent as its own bytes; its size is compared afterwards and its hash not at all |
| `PackWriter.WriteMember` | backup/pack.go:257-287 | One header and one body are appended and the returned offset is where the body starts |
| `PackWriter.WriteMembers` | backup/pack.go:221-288 | Members go out in order until the first refused one; every offset recorded is the true one |
| `PackWriter.WriteDirectory` | backup/pack.go:293-335 | Directory and end record of exactly the members written |
| `PackWriter.TooLargeIsRefused` | backup/pack.go:206-213 | A member over 4 GiB - 1 in company is refused by name, the first such one, before a byte is sent |
| `PackWriter.TooMuchIsRefused` | backup/pack.go:206-213 | Without such a member, refused as too large exactly if the contents exceed 4 GiB - 1 in all, before a byte is sent |
| `PackWriter.FirstChangedMemberEnds` | backup/pack.go:221-256 | A zipped pack ends in front of the first member that is gone, has another size or has another hash, and says which of the three it was |
| `Transfer.PackWireSize` | backup/pack.go:443-454 | The advertised size of a raw or a zipped pack |
| `Transfer.WireSizeExact` | backup/pack.go:443-454 | A write that is not refused emits exactly the advertised number of bytes, raw packs included |
| `Transfer.StreamPlan` | backup/manifest.go:264-280 | A negative or past-the-end offset is refused with nothing sent; otherwise exactly the suffix after the offset is sent, as far as the peer stays |
| `Transfer.ResumesConcatenate` | backup/manifest.go:235-305 | However often a transfer breaks, resuming at the length held concatenates to a prefix of the one stream |
| `Transfer.CompleteExactlyAtWireSize` | backup/manifest.go:235-280 | A client holds the whole pack exactly when it has been sent the advertised number of bytes |
| `Resume.ZippedResumeAssembles` | backup/pack.go:242-256 | With files changing, vanishing and coming back between attempts, a client resuming a zipped pack holds a beginning of the recorded pack, and the whole of it once it has the advertised length |
| `Resume.RawResumeExactlyWhen` | backup/pack.go:421-441 | Over any number of attempts at a raw pack, each against other content of the planned size, what arrives is the beginning of a given content, and once complete that content, if and only if every attempt agrees with it on the range it sent |
| `Resume.RawCutOnce` | backup/pack.go:421-441 | Cut once after k bytes, it arrives complete and is the first content if and only if the two contents agree from k on |
| `Resume.HashesTellApart` | backup/pack.go:246-255 | Where the plan records hashes and they do not collide on the contents at hand, what passes the checks is the recorded content |
| `Transfer.ServedPackReadsBack` | backup/pack.go:186-337 | A served zipped pack reads back as exactly the planned files, and each returned offset slices out its file |
| `Transfer.PlacedIsMeasured` | backup/pack.go:276-288 | What a write returns of a member: path, hash and size as planned, the checksum of its file and the offset of its data |
| `Transfer.PlannedNeverRefusedEarly` | backup/pack.go:206-213 | No planned pack reaches the two early size refusals |
| `Transfer.ExactFrontier` | backup/pack.go:191-296 | For planned packs with paths below 65536 bytes and files as recorded: refused exactly for a lone member whose size is in (2^32-1-30-len(path), 2^32-1]; every other pack is raw or has no truncated field |
| `PackIdentity.PackId` | backup/manifest.go:85-92 | The identifier is the fingerprint of the class line and one line per member |
| `PackIdentity.PreimageDecodes` | backup/manifest.go:79-92 | With newline-free classes and paths and space-free hashes, equal preimages mean equal class and equal (path, hash, size) list |
| `PackIdentity.DecimalInjective` | backup/manifest.go:89 | Two sizes print alike only if they are equal |
| `PackIdentity.DecimalReadsBack` | backup/manifest.go:89 | The digits written are decimal digits without a leading zero and stand for the number |
| `PackIdentity.PreimageInBytes` | backup/manifest.go:85-92 | The lines the fingerprint is taken over, in bytes, for one class and one member |
| `PackIdentity.IdsTellApart` | backup/manifest.go:85-92 | Where the fingerprint does not collide on the plans at hand, equal identifiers mean equal identity |
| `PackIdentity.SameSizeEditRenamesOnePack` | backup/manifest.go:26-33 | A same-size edit changes exactly one pack identifier of its class |
| `Inventory.InventoryStore.constructor` | backup/inventory_store.go:124-127 | An empty inventory |
| `Inventory.InventoryStore.StartGeneration` | backup/inventory_store.go:131-138 | A new, unsealed generation numbered above all others, or an error that may use up a number |
| `Inventory.InventoryStore.SealGeneration` | backup/inventory_store.go:143-151 | Seals one generation with its totals, or changes nothing |
| `Inventory.InventoryStore.FailGeneration` | backup/inventory_store.go:153-159 | Marks a generation failed without unsealing it |
| `Inventory.InventoryStore.CurrentStats` | backup/inventory_store.go:161-185 | For every path the stat key and hash of a row with the highest last_gen |
| `Inventory.InventoryStore.UpsertFiles` | backup/inventory_store.go:193-239 | One statement: applied row by row as the upsert says, or not at all, and never when two of its rows have one key |
| `Inventory.InventoryStore.RecordClassTotal` | backup/inventory_store.go:241-251 | One class total is written over |
| `Inventory.InventoryStore.NoteSuspect` | backup/inventory_store.go:253-264 | A suspect is entered, or its count raised |
| `Inventory.InventoryStore.ClearSuspect` | backup/inventory_store.go:300-305 | A suspect is removed |
| `Inventory.InventoryStore.LastSealedGeneration` | backup/inventory_store.go:288-298 | The highest sealed generation, 0 when there is none |
| `Inventory.InventoryStore.FilesForGen` | backup/inventory_store.go:331-355 | Exactly the rows of the class whose interval holds the generation, each once, ascending by path and by nothing else |
| `Inventory.UpsertedConcat` | backup/inventory.go:430-444 | Splitting a pass into batches does not change the table |
| `Snapshots.UpsertedKey` | backup/inventory_store.go:193-239 | What any list of upserts does to any one key: the interval only grows at its end, the class is never changed on conflict |
| `Snapshots.AppliedFrom` | backup/inventory_store.go:193-239 | What any batches of a pass and of later ones do to one key: a new key joins the generation exactly if the first batch to record it is of the generation’s own pass |
| `Snapshots.StableExactlyWhen` | backup/inventory_store.go:193-239 | Sealed or running, a generation keeps exactly its rows if and only if no pass from it on re-stamps a row that had ended before it and its own pass records no key the table did not hold |
| `Snapshots.AnswersStableExactlyWhen` | backup/inventory_store.go:331-355 | The same for what the query answers, class by class, where equal hashes mean equal sizes |
| `Snapshots.SnapshotAtSeal` | backup/inventory_store.go:331-355 | At the seal a row is current in the generation exactly if the pass recorded it |
| `Snapshots.ClassSnapshotAtSeal` | backup/inventory_store.go:331-355 | At the seal the query answers, class by class, exactly the rows the pass recorded |
| `Snapshots.ServedUnderClassIffStored` | backup/inventory_store.go:212-225 | A row recorded again is served under a class exactly if it was first stored under it |
| `Snapshots.GenerationNeverShrinks` | backup/inventory_store.go:193-239 | No later pass, partial, failed or sealed, takes a row out of a generation |
| `Snapshots.StableIffNothingRevived` | backup/inventory_store.go:193-239 | Once its pass is over, a generation keeps exactly its rows if and only if no later pass re-stamps a row that had ended before it |
| `Snapshots.AnswersStableIffNothingRevived` | backup/inventory_store.go:331-355 | The same for the answers after the seal |
| `Snapshots.RestoredContentRewritesHistory` | backup/inventory_store.go:219-225 | Content A, then B, then A again: the generation that saw only B now answers both |
| `Classes.OrderedClassesOrders` | backup/inventory.go:316-325 | The classes are permuted into (priority, slug) order |
| `Classes.LowerOrderFirst` | backup/inventory.go:316-325 | In the numbers themselves: a lower order comes first, and within one order the slug that sorts lower |
| `Classes.DetectShrink` | backup/inventory.go:477-512 | A class is reported if and only if it is a rotating one that lost every file, or another left with under nine tenths; each once, with the counts before and after and the percentage, the worst first |
| `Classes.ReportedExactlyWhen` | backup/inventory.go:490-505 | No false alarms: a rotating class that still has files and any other that kept nine tenths are never reported, and all others that had files are |
| `Classes.BoundedSilentLoss` | backup/inventory.go:477-512 | k steps without a report leave at least (9/10)^k of the files |
| `Classes.RotatingNeverVanishesSilently` | backup/inventory.go:487-500 | A rotating class never goes from some files to none without a report |
| `FileCheck.HashFile` | backup/inventory.go:126-172 | The hash is of the whole content, and the truncation verdict depends on its first 16 and last 512 bytes and the size the walk saw |
| `FileCheck.LastOfLonger` | backup/inventory.go:143-163 | The rolling window after another chunk is the window of everything read so far |
| `FileCheck.FlaggedExactlyWhen` | backup/inventory.go:195-270 | By its first bytes alone, whatever its name: a JPEG, PNG or GIF is flagged exactly if its end mark is not in its last 512 bytes, an empty file exactly if it is named like an image, and nothing else ever |
| `FileCheck.RehashDue` | backup/inventory.go:333-343 | Due always for a denominator of 1 or less, otherwise when the 32-bit FNV hash of the path modulo the denominator reduced to 32 bits equals the generation modulo the denominator |
| `FileCheck.DueExactlyOnce` | backup/inventory.go:327-343 | Each path is due in exactly one of any `denom` consecutive generations |
| `HashSpread.LastByteTells` | backup/inventory.go:333-343 | Two paths of one directory that differ only in their last byte never hash alike |
| `HashSpread.CountingNamesSpread` | backup/inventory.go:333-343 | Under the denominator in use no two of eight names that count up are due in the same generation |
| `HashSpread.KnownValues` | backup/inventory.go:333-343 | The published FNV-1a values of the empty string, a and b, and exactly the generations in which the job re-reads the last two |
| `IndexPass.BeginPass` | backup/inventory.go:357-378 | A fresh generation, the current stat keys and the suspects as they could be read |
| `IndexPass.IndexFile` | backup/inventory.go:396-427 | The row of a file is carried forward or hashed as the gate decides, an unreadable file has none, the suspect table is kept in step, and it is counted as hashed, skipped, suspect or cleared accordingly |
| `IndexPass.IndexClass` | backup/inventory.go:393-444 | All rows of a class reach the table in order, or a leading part of them if a batch fails; counts and totals are theirs |
| `IndexPass.Flush` | backup/inventory.go:430-444 | A batch either reaches the table whole or leaves it alone |
| `IndexPass.WalkClass` | backup/inventory.go:380-451 | One class of the loop, with hashed plus carried equal to the rows recorded |
| `IndexPass.WalkClasses` | backup/inventory.go:380-451 | The loop over the classes stops at the first failure, and what reached the table is a leading part of the pass |
| `IndexPass.RunPass` | backup/inventory.go:351-457 | A pass seals its generation with the totals of exactly the rows it recorded, or leaves it unsealed with a leading part of them; Hashed + Skipped = Files, and all four counters are those of the files walked |
| `BitRot.EveryFileHasItsTurn` | backup/inventory.go:327-343 | Whatever the stat keys say: over any `denom` finished passes with consecutive generations, a file walked and readable in all of them has, in one of them, the row with the hash of the bytes it then holds |
| `BitRot.DuePassReadsTruly` | backup/inventory.go:396-427 | A finished pass in which a file is due records what the file holds |
| `BitRot.SettledFileIsReadOnce` | backup/inventory.go:396-405 | A file known, unmoved and not suspect is read in exactly one of `denom` passes and carried forward in the others |
| `StatGate.NextPassKnows` | backup/inventory_store.go:161-185 | The pass after one that recorded a row compares the file with exactly that row’s stat key and would carry its hash |
| `StatGate.TallyCountsSuspects` | backup/inventory.go:396-427 | The counts of suspect and cleared files are the numbers of files found damaged and of suspect ones found whole |
| `StatGate.EveryRecordedRowIsTrue` | backup/inventory.go:362-443 | If equal stat keys mean unchanged content, every row of every pass carries the hash of the content its file had at that pass |
| `StatGate.HistoryAttested` | backup/inventory.go:351-457 | After any history of finished and failed passes every stored row was true of its file at the pass that stamped it last |
| `StatGate.RowIsTrue` | backup/inventory.go:396-427 | A carried-forward hash is the hash of the current content |
| `StatGate.AllRowsTrue` | backup/inventory.go:380-438 | The same for all rows of a pass |
| `StatGate.GateEqualsReread` | backup/inventory.go:396-427 | The gated row is the row a pass that knows nothing would record |
| `StatGate.SuspectUntilWhole` | backup/inventory.go:366-424 | Over finished passes that could read the suspect list, a file once read and flagged stays suspect through every pass that finds it damaged and is cleared by the first that finds it whole, whether or not its stat moves or its turn comes |
| `ManifestCache.PrioritySorts` | backup/manifest.go:153-174 | A permutation of the packs in ascending class rank |
| `ManifestCache.CutTransferHoldsLowerRanks` | backup/manifest.go:141-174 | A manifest prefix that reaches a rank holds every pack of every lower rank |
| `ManifestCache.CutTransferHoldsEarlierClasses` | backup/manifest.go:141-174 | With distinct slugs, a transfer cut in a class, or in one nobody declared, holds every pack of every class declared before; undeclared classes come last |
| `ManifestCache.LowerOrderServedFirst` | backup/manifest.go:155-175 | In the numbers themselves: of two packs of declared classes the one whose class has the lower order is listed first |
| `ManifestOrder.ClassListedById` | backup/manifest.go:155-175 | Within one class the identifiers ascend; undeclared classes ascend by name |
| `ManifestOrder.ManifestIsByteStable` | backup/manifest.go:140-175 | Whatever order the packs were appended in, and whichever sort is used, the list is the same where class and identifier tell packs apart |
| `ManifestCache.RanksArePlaces` | backup/manifest.go:201-203 | With distinct slugs the rank of a class is its place in priority order, and there are as many ranks as classes |
| `ManifestCache.BuildNamesItsPlans` | backup/manifest.go:195-223 | The identifiers in the list of a manifest are exactly the keys of the plan map |
| `ManifestCache.BuildBearsItsGeneration` | backup/manifest.go:191-195 | A build bears the number and the sealed totals of the generation it was asked for |
| `ManifestCache.BuildPlans` | backup/manifest.go:190-223 | Plans and manifest of a known generation are assembled from the plan of each class, unless a query fails |
| `ManifestCache.AddPacks` | backup/manifest.go:208-221 | Every pack of a class is entered in the plan map and in the manifest |
| `ManifestCache.RebuildAgrees` | backup/manifest.go:177-233 | Two builds of a generation agree whenever its answers are the same and no path repeats in them |
| `ManifestCache.BuildOutlivesPasses` | backup/manifest.go:177-233 | A build stays a build of the generation while its answers do not change |
| `ManifestCache.RememberedOk` | backup/manifest.go:225-231 | Remembering keeps the cache in order: keys are the entries of the order, at most two, oldest evicted first |
| `ManifestCache.LastTwoRemembered` | backup/manifest.go:118-121 | The two generations built last are remembered, and no other |
| `ManifestCache.PackCache.PlansFor` | backup/manifest.go:177-233 | A remembered generation is answered from memory; another one is built from the tables now and remembered; a failing query or an unknown generation leaves the cache alone |
| `ManifestCache.PackCache.BuildManifest` | backup/manifest.go:126-139 | The manifest of the newest sealed generation; unless a query fails there is one exactly when some generation is sealed |
| `ManifestCache.PackCache.StreamPack` | backup/manifest.go:248-280 | Unless a query fails, the plans are those of the pinned generation, or of the newest sealed one, exactly when it is known; a pack is streamed exactly if its identifier is among them |
| `ManifestCache.CacheIsTransparent` | backup/manifest.go:112-139 | Over any history of requests on generations whose answers stay, every answer is what building from the tables at that moment would give |
| `ManifestCache.PinnedManifestStaysServable` | backup/manifest.go:240-262 | Between requests on stable generations the reply to a generation never changes, evicted or not, and every identifier its manifest lists is among the plans of every later reply, with the same plan |
| `ServedHistory.ReadsSameExactlyWhen` | backup/inventory_store.go:331-355 | For any request, sealed or not: the answers for its generation are the same at a later request if and only if in between no pass revived a row that had ended before it and its own pass recorded no new key |
| `ServedHistory.SealedReadsSameExactlyWhen` | backup/inventory_store.go:331-355 | For a sealed generation, if and only if nothing was revived |
| `ServedHistory.RequestsServedTruly` | backup/manifest.go:177-233 | Over any history of requests that stay good in that sense, with the generation row unchanged, every answer is what building from the tables at that moment would give |
| `ServedHistory.SealedRequestsServedTruly` | backup/manifest.go:177-233 | Sealed requests stay good, and are so answered, as long as nothing is revived between them |
| `ServedHistory.UnsealedAnswersGoStale` | backup/manifest.go:177-233 | The failing family in its smallest form: asked for while its pass runs, then grown; after the seal the answer lists no pack and is no build of the tables |
| `Recovery.CompletePassIsFreshlySealed` | backup/inventory.go:351-457 | A finished pass over disjoint classes leaves a generation whose rows are all readable back as recorded |
| `Recovery.PackRestores` | backup/pack.go:186-337 | A pack planned from a sealed generation streams and restores exactly its members |
| `Recovery.ClassRestores` | backup/manifest.go:202-222 | All packs of a class restore exactly the files recorded for it |
| `Recovery.ManifestRestoresCorpus` | backup/manifest.go:126-280 | A client that goes by the list alone, and checks each pack as its entry says to, gets back exactly the recorded corpus, byte for byte, and every entry is true of the pack it names |
| `Recovery.EntryTellsTheTruth` | backup/manifest.go:33-66 | For every entry whose pack is not refused: the advertised length is that of the stream, class, member count and contents are those of the plan, and a raw entry names the path and hash of the file that is sent |
| `Recovery.EntryIsEnough` | backup/manifest.go:33-66 | Going by the entry and going by the plan restore the same |
| `Recovery.PlanMapHolds` | backup/manifest.go:208-210 | Every planned pack is found under its identifier when identifiers tell packs apart |
| `Recovery.CollisionFreeIdsAreFaithful` | backup/manifest.go:85-92 | They do when the fingerprint does not collide on the plans at hand |
| `Accounting.ManifestAddsUp` | backup/manifest.go:190-223 | For a freshly sealed generation with distinct class slugs the packs of the manifest add up to its Files and Bytes |
| `Accounting.ManifestSums` | backup/manifest.go:202-223 | Members and Content over all packs are the counts and bytes of the recorded rows |
| `Accounting.ClassSums` | backup/pack.go:102-155 | The packs of a class hold each of its rows once |
| `Accounting.RowsPartition` | backup/inventory.go:380-451 | Rows of declared classes are counted once each |
| `IndexJob.RunIndex` | backup/index_job.go:33-78 | The pass, with the shipped denominator of 8, seals before the gate runs and nothing unseals, so a reported generation is the newest sealed one; where the baseline was read, exactly the rotating classes that lost every file and the others left with under nine tenths are reported, with both counts |
| `IndexJob.Baseline` | backup/index_job.go:48-56 | The totals of the newest sealed generation, or none when they cannot be read |
| `IndexJob.GateReadsTables` | backup/index_job.go:48-77 | What the gate compared is what class_stats holds for the two generations |
| `IndexJob.ReportsReadTables` | backup/index_job.go:48-77 | What is reported, and with which counts, is what class_stats holds for the two generations |
| `IndexJob.GatedRunsLoseLittle` | backup/index_job.go:48-77 | Over any chain of gated generations a class keeps (9/10)^k of its files, a rotating one never vanishes |
| `IndexJob.SilentRunsLoseLittle` | backup/index_job.go:48-78 | Over any history of runs without a report, each failed or finished with its baseline read, a class keeps (9/10)^k of its files over the k that finished, and a rotating one that had files has some |
| `IndexJob.SilentChain` | backup/index_job.go:48-78 | The generations such a history sealed are each within the gate of the one before |
| `LossReports.LossIsReportedOnce` | backup/index_job.go:48-78 | For every loss the gate reports there are runs in which the generation that lost stays the newest sealed one, becomes the baseline, and the next run with the files still missing reports nothing |
| `Stamps.TextOrderIsTimeOrder` | backup/dbdump.go:51-54 | Fixed-width stamps compare as text exactly as they do in time |
| `Stamps.TextReadsBack` | backup/dbdump.go:51-54 | Byte by byte: year, month and day in decimal, a T, the time of day in decimal, a Z |
| `DumpRetention.RunDBDump` | backup/dbdump.go:62-222 | Whatever way a run ends, refusal, failure, kill at any point, inside a deletion or between the dump and its publication, or success, the volume is what that ending leaves |
| `DumpRetention.MakeRoom` | backup/dbdump.go:95-136 | Abandoned partials are cleared, then all but keep-1 dumps, before anything can refuse |
| `DumpRetention.Spool.ClearStaleIncoming` | backup/dbdump.go:377-399 | All partials go, or those reached before the kill |
| `DumpRetention.Spool.PublishedDumps` | backup/dbdump.go:434-451 | The published stamps, newest first, each once |
| `DumpRetention.Spool.PruneDumpsTo` | backup/dbdump.go:342-360 | Exactly the dumps outside the `keep` newest go; killed part-way, those reached are gone and the next may be half deleted |
| `DumpRetention.RankIsIndex` | backup/dbdump.go:342-360 | The place of a dump in the listing is the number of newer ones |
| `DumpRetention.PruneKeepsNewest` | backup/dbdump.go:342-360 | Pruning to keep >= 1, to the end or killed anywhere, leaves for each directory before a whole dump at least as new |
| `DumpRetention.PruneLeavesFew` | backup/dbdump.go:342-360 | Pruned to the end exactly the smaller of keep and the number found is left |
| `DumpRetention.NewestFewSurvive` | backup/dbdump.go:132-136 | However a run ends, killed inside a prune included, no dump among the keep - 1 newest is lost or spoilt |
| `DumpRetention.FinishedLeavesKeep` | backup/dbdump.go:206 | A finished run leaves the smaller of keep and one more than it found |
| `DumpRetention.NothingTakenBeforeRoom` | backup/dbdump.go:95-136 | A run that has not begun to make room deletes no dump |
| `DumpRetention.PartialsLeft` | backup/dbdump.go:95-222 | Which unpublished directories each ending leaves: none once the clearing is over, save the one in hand of a run killed between starting its dump and publishing it |
| `DumpRetention.RunBoundsVolume` | backup/dbdump.go:95-222 | With keep >= 2 a run that makes room leaves at most `keep` dumps and one partial, and a bounded volume stays bounded under every ending |
| `DumpRetention.VolumeNeverRatchets` | backup/dbdump.go:95-222 | So does every later state after the first such run, whatever the runs |
| `DumpRetention.RunKeepsNewest` | backup/dbdump.go:95-222 | No ending of a run leaves only older or half-deleted dumps where there was a whole one |
| `DumpRetention.LastDumpIsNeverLost` | backup/dbdump.go:95-222 | Once there is a whole dump there is always a whole one at least as new |
| `DumpRetention.NewerIsLater` | backup/dbdump.go:434-451 | A dump counts as newer than another exactly if it is later in time |
| `DumpRetention.NoLaterDumpIsLost` | backup/dbdump.go:95-222 | In time: over any runs, once there is a whole dump there is always a whole one that is no earlier |
| `DumpRetention.LatestFewSurvive` | backup/dbdump.go:132-136 | In time: a dump with fewer than keep - 1 later ones outlives every run, wherever it ends, and is not spoilt |
| `DumpRetention.RunPublishesFinished` | backup/dbdump.go:164-187 | A directory is published whole, by a dump that finished; only a killed prune spoils one, and never without a newer whole one beside it |
| `DumpRetention.FinishedDumpStays` | backup/dbdump.go:206 | A finished run keeps the dump it made when its stamp is the newest |
| `DumpRetention.KeepOneRatchets` | backup/dbdump.go:132-136 | With keep = 1 there is no room made beforehand: n kills between publishing and pruning leave n more dumps |
| `DumpRetention.BoundedExactlyWhen` | backup/dbdump.go:132-136 | Every volume stays bounded from its first run that makes room on, whatever the runs, if and only if at least two dumps are kept |
| `DumpRetention.DumpKeep` | backup/dbdump.go:331-338 | At least one dump stays: the setting if it is positive, the default otherwise |
| `AchievementRows.StatementsKeepRows` | achievements/store_pg.go:155-304 | Every statement keeps: paid implies completed, and times is 1 or 0 as the row is completed or not |
| `AchievementRows.StatementsOnlyForward` | achievements/store_pg.go:155-265 | No statement takes back a completion, its time or a payment |
| `AchievementRows.WritesNeverComplete` | achievements/store_pg.go:155-209 | No number of progress writes completes a row |
| `AchievementRows.CrossingReportedUntilCompleted` | achievements/store_pg.go:168-209 | After any run of writes, whoever died on hearing them, the next one reports a crossing if and only if the row was open and the last total set plus what was added since is at or above a positive threshold |
| `AchievementRows.WritesReachLevel` | achievements/store_pg.go:155-209 | A run of writes leaves the last total set plus what was added since |
| `MemStore.Store.constructor` | achievements/store_mem.go:57-64 | An empty store |
| `MemStore.Store.SetProgress` | achievements/store_mem.go:203-233 | Adding or setting, the answer and the rows are those of the SQL upserts |
| `MemStore.Store.RecordProgress` | achievements/store_mem.go:191-193 | Same answer and same rows as the SQL statement, from any valid state |
| `MemStore.Store.IncrementProgress` | achievements/store_mem.go:196-201 | The same, with a delta that is not positive answered before the lookup |
| `MemStore.Store.CompleteAchievement` | achievements/store_mem.go:235-261 | Same three answers and same rows as the SQL latch |
| `MemStore.Store.MarkPaid` | achievements/store_mem.go:263-275 | Same rows as the SQL update, no-ops included |
| `MemStore.Store.MarkBackfilled` | achievements/store_mem.go:327-343 | Same definitions as the SQL update; an unknown id is an error here and a no-op there |
| `MemStore.Store.UnpaidCompletions` | achievements/store_mem.go:277-307 | The first `limit` owed rows in identity order |
| `MemStore.TableStep` | achievements/store_mem.go:203-261 | Writing one entry of the progress map writes that one row of the table it stands for |
| `PayRuns.ExactlyOnce` | achievements/subscribe.go:149-202 | In every state any interleaving of events, triggers, passes, awards, sweeps, failing calls and crashes reaches through safe edits: completed at most once, announced at most once, one grant per member and reference, every stamp backed by exactly one of a grant and a free completion, and the granter asked for completed rows only, never for a badge or a direct award |
| `PayRuns.PaidMeansGranted` | achievements/jobs.go:67-72 | With rewards left alone: a paid row of a rewarded achievement that was not awarded directly has exactly that reward granted |
| `PayRuns.NothingIsTakenBack` | achievements/store_pg.go:155-265 | Over any run, safe or not, completions, their times, payments, grants and announcements are only added |
| `PayRuns.RunKeeps` | achievements/subscribe.go:149-202 | Every run of safe actions keeps the invariant |
| `PaySteps.ActKeeps` | achievements/subscribe.go:52-289 | Every action of any thread keeps the invariant |
| `PaySteps.CompleteKeeps` | achievements/subscribe.go:149-172 | Winning or losing the latch, with the call failing before or after it |
| `PaySteps.PayKeeps` | achievements/subscribe.go:182-202 | A granter call that grants, refuses, or grants and then fails |
| `PaySteps.SweepKeeps` | achievements/jobs.go:89-122 | One step of the repair sweep over a batch that may have gone stale |
| `PaySteps.DefineKeeps` | achievements/store_pg.go:378-465 | Creating, enabling and safely editing definitions while threads hold old copies |
| `PaySteps.SweepStartKeeps` | achievements/store_pg.go:280-291 | A batch of owed rows agrees with every payment already under way |
| `PayOnce.LatchKeeps` | achievements/store_pg.go:230-251 | The completion statement on an open row |
| `PayOnce.AskKeeps` | rewards/granter_byslug.go:49-117 | A grant under the caller reference, deduplicated on (reward, user, reference) |
| `PayOnce.StampKeeps` | achievements/store_pg.go:258-265 | A stamp on a row whose grant exists |
| `PayOnce.AnnounceKeeps` | achievements/events.go:52-63 | An announcement by the one thread that completed the row |
| `PayOnce.DefinitionsKeep` | achievements/store_pg.go:439-465 | A redefinition whose new rewards no claim under way disagrees with |
| `PayOnce.PromisedIsCompleted` | achievements/subscribe.go:149-202 | Only completed rows that did not stamp themselves are granted or owed anything |
| `RewardEdit.EditIsSafeExactlyWhen` | achievements/store_pg.go:439-465 | In any state safe edits lead to, an edit of a reward is safe if and only if no continuation pays a member twice under that achievement; a pass under way counts only with the members it has yet to meet |
| `RewardEdit.UnsafeEditPaysTwice` | achievements/store_pg.go:456 | From any such state an unsafe edit has a continuation, rewards left alone from there on, with two grants |
| `RewardEdit.EditedBeforeStampPaysTwice` | achievements/subscribe.go:187-201 | Concretely: completed by a trigger, granted, killed before the stamp, reward edited, swept: two grants |
| `RewardEdit.PromisePays` | achievements/jobs.go:106-121 | A thread that holds a payment as owed can still make it, wherever it stands in its batch |
| `RewardEdit.CompleteIt` | achievements/subscribe.go:222-272 | A thread holding an old copy of a definition can still complete an open row of a member it has yet to meet under the old reward |
| `Handlers.Plugin.OnEvent` | achievements/subscribe.go:52-67 | Nothing for user 0 or a count that is not positive; otherwise only rows of enabled definitions whose metric, if the event counts, or whose trigger is its name move, whatever fails; with no failing call each of them has its number up by the count, is completed once and paid exactly at the threshold or on the trigger, and is announced exactly if that is news, from the lowest threshold up; each failing call spoils at most one share; and all of it is a run of the protocol |
| `Columns.EventInColumns` | achievements/store_pg.go:73-93 | What the shares of an event say of every row, read off the columns: enabled, metric, trigger, threshold and backfill mark |
| `Columns.ListedIsHeeded` | achievements/store_pg.go:73-93 | A definition is heard of exactly if it is enabled and its metric, or for triggers its trigger, is the name |
| `Columns.ListedIsAnnounced` | achievements/subscribe.go:82-94 | An open row is announced exactly if it is completed here and its definition was backfilled, or by a trigger |
| `Columns.HeardLowestFirst` | achievements/subscribe.go:71-95 | Milestones of one name crossed at once are announced from the lowest threshold up |
| `Columns.PassInColumns` | achievements/subscribe.go:249-272 | What the shares of a metric pass say of every row, read off the columns |
| `Columns.WritesReachCountable` | achievements/store_pg.go:83-93 | A progress write reaches only rows of enabled definitions scored on that name: the rows the repair sweep takes for re-dated |
| `Columns.CountIsOfCompletions` | achievements/subscribe.go:249-272 | With no failing call the completions counted are the rows open before and completed after |
| `Handlers.Plugin.ScoreEvent` | achievements/subscribe.go:71-95 | The counting half: every enabled definition of that metric by threshold, unless the query fails; one that fails does not stop the others |
| `Handlers.Plugin.ScoreOne` | achievements/subscribe.go:82-94 | One definition: added to; if its calls answer, completed and paid exactly if an open row reaches the threshold, and announced exactly if the definition read was backfilled |
| `Handlers.Plugin.CountOne` | achievements/subscribe.go:83-93 | The same from the write on |
| `Handlers.Plugin.FireTriggers` | achievements/subscribe.go:101-125 | The trigger half: every open row whose calls answer is completed, paid and announced, a held one left alone, no progress changed, and one that fails does not stop the others |
| `Handlers.Plugin.FireOne` | achievements/subscribe.go:113-124 | One trigger completion, never silent |
| `Handlers.Plugin.CompleteAchievementSilent` | achievements/subscribe.go:149-172 | A held row changes nothing; an open one is completed, then paid, then announced unless silent; without an error it is held, paid or not; a failing call leaves a run of the protocol |
| `Handlers.Plugin.PayReward` | achievements/subscribe.go:182-202 | Paid exactly when the granter answered; a failed stamp does not make it unpaid |
| `Handlers.Plugin.GrantAchievement` | achievements/granter.go:23-51 | Completes, stamps and announces an open badge, leaves a held one alone, refuses user 0 and unknown slugs, never asks the granter, and reports an error exactly if refused or a call failed |
| `Handlers.Plugin.Award` | achievements/granter.go:37-50 | The same for a definition that was found |
| `Handlers.Plugin.RepayUnpaid` | achievements/jobs.go:89-122 | Takes the completed and unpaid rows whose definition has a reward, all of them or 500; without a granter nothing happens; otherwise every row of the batch has its reward granted to its member under the slug and has gained its stamp and nothing else, except those whose grant was refused, which are as they were, and those whose stamp failed, which are granted; the three add up to the batch and to the failing calls |
| `Handlers.Plugin.RepayRows` | achievements/jobs.go:106-120 | The loop: a refusal does not stop the rest |
| `Handlers.Plugin.RepayOne` | achievements/jobs.go:106-121 | One row: the same grant again, then the stamp, and what each failure leaves |
| `Repaying.BatchTakesOwed` | achievements/store_pg.go:280-291 | In the columns: completed, unpaid, with a reward; every such row, each once, or 500 of them |
| `Handlers.Plugin.UnpaidCompletions` | achievements/store_pg.go:280-291 | Owed rows, each once, all of them or a full batch, or the query fails |
| `Handlers.Plugin.ScoreMetric` | achievements/subscribe.go:222-289 | Nothing without definitions or readings; only rows of members named with a positive total, under enabled definitions of that metric, ever move; a whole pass without failures sets each of them to the total, completes and pays exactly the open ones that reach a positive threshold, announces exactly those whose definition was backfilled, and leaves all definitions backfilled; a failing write ends the pass there; without failures the count returned is the number of rows open before and completed after |
| `Handlers.Plugin.ScoreMembers` | achievements/subscribe.go:249-272 | The loop over the members: a failing completion stops nobody else, a failing write ends the pass with every earlier member dealt with in full |
| `Handlers.Plugin.ScoreMemberAll` | achievements/subscribe.go:253-271 | One total against every definition of the pass, each once, up to the first failing write |
| `Handlers.Plugin.ScoreMember` | achievements/subscribe.go:254-270 | One total against one definition: set; if its calls answer, completed, paid and counted exactly if an open row reaches the threshold, and announced exactly if the definition read was backfilled; counted only if held |
| `Handlers.Plugin.EndPasses` | achievements/subscribe.go:280-287 | The marks at the end of a first pass |
| `Handlers.Plugin.DefsWhere` | achievements/store_pg.go:73-93 | Exactly the enabled definitions the name selects, each once, or the query fails |
| `Handlers.Plugin.SelectDefs` | achievements/store_pg.go:83-93 | Those of a metric in order of threshold |
| `Shares.ServedInFull` | achievements/subscribe.go:82-94 | A write and the completion it calls for, no call failing, move the number, complete and pay an open row exactly at the threshold or on a trigger, and announce it exactly if it is news |
| `Shares.MetJoins` | achievements/subscribe.go:82-94 | Shares of different rows add up: rows served stay served, and announcements come in order |
| `Repaying.SweepGoesOn` | achievements/jobs.go:106-120 | One more row of a sweep, however its calls fare, changes no other |
| `Handlers.Plugin.BySlug` | achievements/store_pg.go:107-120 | The definition of a slug, or none; a failing query finds none |
| `Silence.UnscoredStaysSilent` | achievements/subscribe.go:128-133 | An achievement that no metric pass scores, nothing triggers and nobody awards is never marked backfilled, and none of it is ever announced |
| `Definitions.CreatedExactlyWhen` | achievements/store_pg.go:378-420 | A definition is created exactly if it has a slug no other has and a criterion: a metric with a positive threshold, or a trigger; and then it is disabled and not backfilled |
| `Definitions.EditedExactlyWhen` | achievements/store_pg.go:439-465 | An edit is taken exactly if the criterion makes sense, and moves neither slug nor marks |
| `Definitions.CatalogueStaysSensible` | achievements/store_pg.go:378-465 | Over any run, whatever fails, crashes or is edited, every definition has a slug of its own and a criterion that can be met |
| `Announcing.AnnouncedExactlyWhenPassEnded` | achievements/subscribe.go:82-94 | An open row that an event brings to its threshold, no call failing, is completed and paid, and it is announced if and only if a metric pass over the achievement had ended before |
| `Announcing.BackfilledExactlyWhen` | achievements/subscribe.go:280-287 | Over any run a definition is backfilled if and only if a metric pass over it has ended |
| `Announcing.CompletedInSilence` | achievements/subscribe.go:128-133 | Concretely: created, enabled, one event, and the member holds it with nothing announced |
| `RepairSweep.Drains` | achievements/jobs.go:27-31 | With f < 500 refused rows n ticks pay everything once n*(500-f) reaches the number payable, however progress writes re-date rows between the ticks |
| `RepairSweep.DrainsExactlyWhen` | achievements/jobs.go:27-31 | For the rows `can` that progress writes may re-date: everything payable gets paid under every such re-dating if and only if every payable row has fewer than 500 refused ones no younger than it, and, if it is in `can`, fewer than 500 are refused at all |
| `RepairSweep.SurelyPaidExactlyWhen` | achievements/store_pg.go:280-291 | The same row by row: within as many ticks as there are payable rows it is paid under every re-dating, if and only if it keeps its turn in that sense |
| `RepairSweep.NeverPaidExactlyWhen` | achievements/store_pg.go:280-291 | A payable row is never paid, whatever the re-datings and however many ticks, if and only if 500 refused rows are older than it and out of reach of every write |
| `RepairSweep.TablesDrainExactlyWhen` | achievements/store_pg.go:83-93 | The drain condition read off the tables, where writes reach the rows of enabled definitions scored on an event or counter of the site |
| `RepairSweep.OlderPrizeIsPaid` | achievements/store_pg.go:168-209 | Any number of refused milestones, re-dated at will, cannot keep an older trigger prize from being paid; could writes reach it, 500 of them would |
| `RepairSweep.TickPaysItsRoom` | achievements/jobs.go:89-122 | After any re-dating a sweep pays all that is payable, or at least 500 minus the number of refused rows |
| `RepairSweep.TriggerBadgesStarve` | achievements/store_pg.go:280-291 | A table where a payable row is never paid: behind 500 members with a refused trigger badge, whose rows no progress write touches |
| `RepairSweep.SweepMovesTheTable` | achievements/jobs.go:106-121 | What the loop leaves owed, by its own account of refused rows and failed stamps, is the swept table, up to the rows whose stamp failed |
| `RepairSweep.OldestIsBatch` | achievements/store_pg.go:280-291 | The oldest owed rows are a batch the query may answer |
| `Glob.GlobMatch` | anidbscraper/group_gate.go:162-186 | True exactly if the string splits so that every star stands for some run and everything else for itself |
| `Glob.StarsStandForRuns` | anidbscraper/group_gate.go:162-186 | In bytes: an asterisk stands for any run, and a pattern without one for itself alone |
| `Glob.MatchesByParts` | anidbscraper/group_gate.go:163-174 | The meaning of a pattern in terms of its pieces between stars |
| `Glob.LeftmostSuffices` | anidbscraper/group_gate.go:172-181 | Taking the leftmost place of a middle piece loses no match |
| `Glob.LastIsSuffix` | anidbscraper/group_gate.go:182-185 | The last piece matches exactly as a suffix of what is left, so it never overlaps the ones before |
| `Glob.Index` | anidbscraper/group_gate.go:176-179 | The leftmost occurrence, or none |
| `Glob.Allows` | anidbscraper/group_gate.go:212-233 | Inert gates allow all; the host override decides alone; otherwise one listed group suffices, and a row known from no group is allowed |
| `Mountinfo.FsTypeForPath` | backup/mountcheck.go:50-76 | The type of the first line with the longest mount point that governs the path; none exactly if no line governs it |
| `Mountinfo.UnderIsComponentwise` | backup/mountcheck.go:80-85 | For an absolute path a mount point governs it exactly if its components are an initial run of the components of the path |
| `Mountinfo.OrderDoesNotMatter` | backup/mountcheck.go:50-76 | Among distinct mount points the order of the lines does not change the answer |
| `Mountinfo.SameLengthSameMount` | backup/mountcheck.go:66-72 | Two governing mount points of one length are the same mount point |
| `Mountinfo.UnescapeEscape` | backup/mountcheck.go:89-95 | Decoding inverts the octal escaping of space, tab, newline and backslash for every string |
| `Mountinfo.LineReadsBack` | backup/mountcheck.go:56-66 | A line laid out as proc(5) says is read as its mount point and type, whatever optional fields it has |
| `Mountinfo.FieldsOfJoin` | backup/mountcheck.go:60 | Fields joined by spaces split into the same fields |
| `Mountinfo.CutOfJoin` | backup/mountcheck.go:56 | The first separator is the separator, as no field before it is a lone dash |

## Left out

- Sizes and counts are naturals: the 64-bit wrap-around of a corpus beyond 2^63 bytes is not modelled. Thirty-two-bit and sixteen-bit fields are, with their truncation.
- A file is stable during one `writePack`: a change between the digest and the copy is not modelled.
- SHA-256, CRC-32 and the fingerprint are parameters; identity results are about preimages, or assume no collision on the plans at hand where they say so.
- `memberPath` and symbolic links: a file is found by its recorded path.
- `writePack` checks no name length; the results that need untruncated names require paths below 65536 bytes (`backup/pack.go:269`).
- The plain writer used when `skip` is 0 is modelled as a skip writer with nothing to skip.
- `sort.Slice` and `sort.SliceStable` are insertion sorts with the same comparison; where equal keys leave the order open the specification leaves it open.
- `walkClass`: the walk of a directory is a function from classes to lists of paths, each path once per class; directory structure, patterns and skipped names are not modelled.
- The columns hashed_at, sealed_at and suspect details, and errors of suspect-table writes that the pass ignores, are not modelled.
- PackWriter.WritePack: refusals by `memberPath` and read errors while a file is digested or copied are not modelled; a file that cannot be opened is.
- PackWriter.WriteMembers: the same.
- A store call that fails has had no effect on the tables of the backup plugin; an ambiguous commit there is not modelled. In the achievements protocol it is.
- Classes.DetectShrink: the floating-point percentage is a real number.
- `Classes.Before` and the cache lock: concurrent requests are taken one at a time, as the mutex makes them.
- FileCheck.RehashDue: a denominator that is a positive multiple of 2^32 divides by zero in the code and is excluded.
- FileCheck.HashFile: the first read is taken to be at least as long as the head window, or the whole of a shorter file.
- Stamps.TextOrderIsTimeOrder: stamps range over all field values within their widths, a superset of the calendar.
- RepairSweep: no new completions during a history, and the refused rows are the same throughout; a row completed meanwhile is younger than every other.
- Directories that are not dumps, dump manifests, retired archive folders, `pg_dump` itself and the disk-space estimate are not modelled; deletions that are reached succeed, and `keep` is fixed over the runs of one statement.
- KeepOneRatchets: shows the growth for kills after publishing only; a finished run with `keep` 1 prunes back to one.
- Acknowledgements, the suspects page, formatters and every HTTP handler, view and template.
- The rewards engine behind `GrantOneOff` is its contract: a set of grants deduplicated on (reward, user, reference), any call of which may be refused.
- ExactlyOnce: announcements are at most once, not exactly once, since a crash before the emit loses one; nothing in the source repeats it.
- Protocol: a thread that handles several definitions is several threads of the model, so more interleavings are allowed than occur; the ordering columns ordinal, name and updated_at are not in the rows.
- Definitions are never deleted, and slugs are not settable, as in the source; names, descriptions, icons and localization are left out.
- Validation of a definition covers the slug, its uniqueness and the criterion; trimming of white space and the required name are left out.
- Handlers.Plugin.RepayUnpaid: which 500 rows the query answers is open here; age order is in `RepairSweep`.
- Handlers.Plugin.UnpaidCompletions: the same; the rows of the protocol carry no updated_at.
- Handlers.Plugin.DefsWhere: the order of the definitions of a trigger, by ordinal and name, is left open, since the definitions carry neither.
- Handlers.Plugin.OnEvent: the event an announcement emits, to which the plugin subscribes too, is not delivered inside this method. A host that delivers in line interleaves its steps here, which the protocol allows; what is said of other rows and of the order of announcements is about this event alone. At most one announcement is ever made of a row (`PayRuns.ExactlyOnce`), so such a cascade ends.
- `runScoring` runs the metric passes in map order and then the sweep; the job handle, pause and logging are left out.
- GlobMatch: patterns and names are byte strings, trimmed and lowered by a function passed in; `parseGroupPatterns`, `newGroupGate`, `verdict`, `describe` and the tallies are left out.
- FsTypeForPath: white space is the ASCII kind, lines are given, and a line beyond the scanner's limit, which ends the scan, is not modelled. Two lines with the same mount point make the first win, as in the code.
- LineReadsBack: mount points holding a vertical tab, form feed or carriage return, which proc(5) does not escape, are excluded.
- `pathPersistence` resolves symbolic links and opens `/proc`; only the parsing is modelled.
- The other packages (`agent`, `applications`, `catalog`, `chat`, `backups`, `messages` and the title index of `anidbscraper`) are plugins and programs of their own, of which no result here speaks.
