# Squallz file safety, verified

A Dafny model of the file-safety layer of Squallz (`crates/squallz-core`): the code that publishes,
guards, plans, collects and cleans up files while crashes happen and other programs work on the same
directories. `dafny verify dfyconfig.toml` checks all of it.

| modules | component |
|---|---|
| `FileSetModel`, `FileSetSafety`, `FileSetVolume`, `FileSetPublication`, `FileSetRecovery`, `FileSetPreparation`, `FileSetOverlap`, `FileSetNames` | journaled publication of a file set and its recovery (`output_set.rs`) |
| `DestinationSnapshot`, `SnapshotWalk`, `SnapshotAgreement`, `ExtractPlan`, `ExtractOrder`, `ExtractEntries` | budgeted directory cache and conflict estimate before extraction (`layout.rs`) |
| `TreeStream`, `TreeScan`, `TreeDigest`, `TreeHash`, `TreeSnapshot` | digest of a destination tree that other programs may be changing (`destination_guard.rs`) |
| `Naming`, `SplitFamily` | automatic numbered archive names, single and split (`destination_guard.rs`, `volumes.rs`) |
| `ExtractGuard` | the byte stream behind an extraction guard (`extract_guard.rs`) |
| `InputMerge`, `InputWalk`, `PathFilter` | the input manifest: pruned walk and overlap merge (`inputs.rs`, `filter.rs`) |
| `OwnerRecord`, `Workspaces`, `WorkspaceRegistry` | private plaintext workspaces shared by processes (`plaintext.rs`) |
| `SharedSource` | many readers over one seekable stream (`compound.rs`) |
| `ByteStream`, `Lexicographic`, `AsciiText`, `Sequences`, `Options` | shared definitions |

## How it is modelled

- **File set.** Names map to identities and identities to inodes. A transaction is a chain of
  directory operations (publish the journal, install each member, primary last, remove the staging
  directory, unlink the journal); stage `k` says exactly which of its entries are where. There is a
  live and a durable directory; a crash falls back to the durable one, which lags at most one
  operation behind. The environment may create, replace and remove anything with a foreign identity
  between any two steps; that includes other publications in the same directory. Only the journal of
  this primary it may not create, because that takes the lock of the primary, which is held.
  `Volume` is the mutable file system; it records the worlds it goes through, so that each method's run
  is a run of the step machine, and so that a success can say what was seen, and in which order.
- **Destination snapshot.** `fs.inspect`, `fs.list` and `fs.descend` are arbitrary functions of an
  unchanging destination, the alias hash is an arbitrary function, the five budgets are arbitrary.
  `Coherent` is the hypothesis about names: two distinct siblings alias only by ASCII case, or when
  the looked-up name is not ASCII, is at most 12 bytes long or contains `~`, or when the sibling has a
  non-ASCII character outside the ranges listed in the code.
- **Tree digest.** A timeline gives what is at each path at each instant, a second one what an open
  file shows; `Observer` lets any amount of time pass before each look. Digests are represented by
  the bytes fed to the hasher. The nested 32-byte digests are represented by the bytes they digest.
- **Shared source.** Content is shorter than 2^64 bytes, which `Source` requires: only then can the
  reader's overflow check never fail.
- **Workspaces.** A state machine of any number of processes with one action per file-system or lock
  operation; writes of records and markers may end anywhere. `Registry` is one process whose
  operations are interleaved with arbitrary steps of the others.

## What was found

- A publication can be prepared that no recovery can ever finish: two staged members that are hard
  links to one file, or a member with the journal's own name. `PreparedIsRecoverable` says that these
  are the only ones; `TwoLinksAreAcceptedAndStuck` is an input, `LinkedMembersBlockRecovery` and
  `MemberNamedLikeJournalBlocksRecovery` are the two failures. `CommitNoReplace` itself succeeds on
  linked members exactly when a rename leaves the change time alone.
- A crash that undoes a rename but keeps the change time the rename gave the file makes recovery give
  up, exactly when that time differs (`TornChangeTimeBlocksRecovery`). The crash step of the model
  drops the operation as a whole.
- The automatic name search can pick an existing name when the extension has a `)`; for split archives
  also when the base has extension `zip` or `swm`, whose native parts (`a (2).z01`, `a (2)2.swm`) the
  single pass does not count, or when the base still looks like a volume (`x.001`). Otherwise, and only
  then, it is right (`SearchIsRightExactly`, `TakenButPicked`, `NativePart`, `DoublySplit`).
- The conflict estimate depends on the order of entries; that it is zero does not
  (`CountDependsOnOrder`, `ZeroIsOrderIndependent`). On a destination that does not exist it is the same
  for every order exactly when no file has its path made a directory in two separate ways
  (`EstimateIsOrderFreeExactly`).
- The cache does not answer like direct lookups on every destination: one that can be listed but not
  searched is answered from the listing where a lookup fails (`UnsearchableDirectory`). A fresh snapshot
  with room agrees with lookups on every target, at any depth, exactly when listing and lookups agree in
  each listed directory that lookups reach (`FreshAgreesExactly`): listed names show what was listed, and
  each proper name that cannot alias a listed one, and whose alias hash collides with none cached on the
  way, is missing. This holds for every hash. A directory left to single lookups is always answered like
  lookups (`PointLookupsAgree`).
- Whether the input walk fails on an entry that is excluded by its name depends on which check comes
  first: exactly when its metadata cannot be read or its path is refused (`OrderMattersExactly`).
- In `analyze_extract_layout_checked` the branch for a single root that is not a directory is never
  taken; the loop has returned before.
- A record whose writing was cut off right after the token line parses as a record without a file
  name, and no other part of it parses (`PrefixesThatParse`). It does no harm: at that point there is no
  directory yet, and so the workspace can be reclaimed.
- A crash in creation leaves something that no scan ever removes if the record was cut off elsewhere, or
  if the marker was opened and is not complete; plaintext is never in it (`CrashInCreation`,
  `CrashInCreationIsSettled`).

## Model

| member | source | states |
|---|---|---|
| FileSetSafety.ExactlyOnePlace | crates/squallz-core/src/output_set.rs:515-559 | at each stage a member is at exactly one of its staged and final paths, with its identity, contents and the right state |
| FileSetSafety.HolderAndJournalPlace | crates/squallz-core/src/output_set.rs:275-337 | exactly which stages have the staging directory and the journal |
| FileSetSafety.ActAdvances | crates/squallz-core/src/output_set.rs:275-334 | each directory operation takes the chain from one stage to the next |
| FileSetSafety.StepKeepsChain | crates/squallz-core/src/output_set.rs:255-338 | commit, recovery, parent syncs, crashes and foreign activity keep the live and durable directory on the chain |
| FileSetSafety.RunKeepsChain | crates/squallz-core/src/output_set.rs:255-338 | so does every run |
| FileSetSafety.MembersNeverLostOrDoubled | crates/squallz-core/src/output_set.rs:275-297 | in every reachable world, live or durable, each member is at exactly one of its two paths |
| FileSetSafety.PrimaryIsLast | crates/squallz-core/src/output_set.rs:203-235 | the primary is at its final path only in worlds where all other members are |
| FileSetSafety.ActsSpareForeignEntries | crates/squallz-core/src/output_set.rs:938-945 | no operation overwrites, moves, unlinks or adds an entry with a foreign identity |
| FileSetSafety.RemainingIsDistance | crates/squallz-core/src/output_set.rs:503-595 | staged members plus staging directory plus journal count down to zero along the chain |
| FileSetOverlap.OtherActIsForeign | crates/squallz-core/src/output_set.rs:255-338 | an operation of a publication of other files with another primary is activity that each file-set theorem allows for |
| FileSetOverlap.OverlapKeepsBoth | crates/squallz-core/src/output_set.rs:255-338 | where two publications overlap in one directory, an operation of one keeps both on their chains |
| FileSetVolume.TraceIsRun | crates/squallz-core/src/output_set.rs:255-338 | what the methods record is a run of the step machine |
| FileSetNames.ReportedOutputs | crates/squallz-core/src/output_set.rs:327-337 | every output once, the primary first and the others in name order |
| FileSetNames.NameLessExactly | crates/squallz-core/src/output_set.rs:228-235 | names are ordered by their first difference |
| FileSetVolume.Volume.SyncParent | crates/squallz-core/src/output_set.rs:290-296 | makes the live directory durable, or fails and leaves the durable one |
| FileSetVolume.Volume.MoveOut | crates/squallz-core/src/output_set.rs:284-289 | the no-replace rename of one member: exactly that entry moves, or nothing changes |
| FileSetVolume.Volume.RemoveDirectory | crates/squallz-core/src/output_set.rs:311-318 | removes exactly the empty staging directory, or nothing |
| FileSetVolume.Volume.RemoveBoundFile | crates/squallz-core/src/output_set.rs:938-945 | unlinks exactly the entry with the bound identity, or nothing |
| FileSetVolume.Volume.PublishFile | crates/squallz-core/src/output_set.rs:796-855 | creates exactly the journal entry where none was, or nothing; it may report a failure with the journal in place, which is then one stage further |
| FileSetPublication.InstallMember | crates/squallz-core/src/output_set.rs:515-533 | installs and syncs one member; the rename comes after the member was seen intact and the journal in place; on success the tracked stage is one further and settled |
| FileSetPublication.ResumeMember | crates/squallz-core/src/output_set.rs:515-543 | resumes one member from either place; undisturbed it succeeds exactly when the member can be resumed |
| FileSetPublication.ResumeAll | crates/squallz-core/src/output_set.rs:515-543 | the loop installs exactly the members that are not installed yet, in order |
| FileSetPublication.VerifyAll | crates/squallz-core/src/output_set.rs:561-563 | success means that each member was seen at its final path with its identity and recorded state, and no longer staged; with foreign activity that spares the members, all of them are installed so |
| FileSetPublication.RemoveHolder | crates/squallz-core/src/output_set.rs:564-595 | removes the staging directory only when it is the bound one and empty |
| FileSetPublication.Resume | crates/squallz-core/src/output_set.rs:503-595 | undisturbed it succeeds exactly when the journal's transaction can be resumed, and its result is given entry by entry; in any case a success went through its checks in order |
| FileSetPublication.ClearJournal | crates/squallz-core/src/output_set.rs:926-936 | unlinks exactly the bound journal and syncs |
| FileSetPublication.RecoverLocked | crates/squallz-core/src/output_set.rs:423-431 | what recovery returns and leaves: exactly when it finds nothing, exactly when it completes, with which error it fails, and the completed directory; an interrupted transaction ends at its last stage, durably; whatever others do, completion means that an acceptable journal was in place before and after every member was seen intact at its final path and no longer staged |
| FileSetPublication.VerifyBindings | crates/squallz-core/src/output_set.rs:340-366 | accepts exactly the staged files that still match what was prepared |
| FileSetPublication.EnsureOutputsMissing | crates/squallz-core/src/output_set.rs:769-786 | succeeds undisturbed exactly when no output path is taken |
| FileSetPublication.CommitMember | crates/squallz-core/src/output_set.rs:275-297 | one turn of the commit loop: one stage further, or an error that leaves the stage resumable; the rename comes after the journal was seen in place and the member as prepared, and the member was seen installed after it |
| FileSetPublication.CommitAll | crates/squallz-core/src/output_set.rs:275-302 | the loop installs all members in order, primary last, and then sees the journal and each of them once more |
| FileSetPublication.CommitFindsPrepared | crates/squallz-core/src/output_set.rs:275-283 | when its turn comes a member is as prepared, unless another link to its file was installed before and a rename moves the change time |
| FileSetPublication.PublishSet | crates/squallz-core/src/output_set.rs:263-338 | a successful commit ends at the last stage, settled; every error leaves a stage of the chain; a journal beyond the size limit is refused |
| FileSetPublication.CommitNoReplace | crates/squallz-core/src/output_set.rs:255-338 | never succeeds when a journal for the same primary is pending; undisturbed it succeeds exactly when the set can be committed, with linked members exactly when renames leave the change time alone, fails with the error of the first check that fails, and then the outputs are exactly the prepared members; it reports each output once, the primary first and the others in name order; whatever others do, a success went through all checks in order |
| FileSetPublication.StaleMemberBlocksCommit | crates/squallz-core/src/output_set.rs:656-668 | a staged file that changed since blocks the commit exactly when its metadata shows it |
| FileSetRecovery.InterruptedIsResumable | crates/squallz-core/src/output_set.rs:449-501 | between journal and cleanup recovery can resume exactly when no foreign entry is in the way |
| FileSetRecovery.FinishInterrupted | crates/squallz-core/src/output_set.rs:423-431 | once the journal is durable, after any further run with crashes one undisturbed recovery finishes or finds nothing pending, unless something foreign is in the way; then all members are at their final paths, nothing else of the transaction is left, and every foreign entry is untouched; even when it fails the publication is at a stage of its chain |
| FileSetRecovery.DurableStageGrows | crates/squallz-core/src/output_set.rs:255-338 | no event of a run takes back what was durable |
| FileSetRecovery.DurableJournalWorld | crates/squallz-core/src/output_set.rs:263-338 | after the journal was durable a world without it is one where the publication has finished |
| FileSetRecovery.InterruptedWorld | crates/squallz-core/src/output_set.rs:449-501 | each reachable world with a pending journal is recognised by recovery |
| FileSetRecovery.TornChangeTimeBlocksRecovery | crates/squallz-core/src/output_set.rs:686-716 | a rename that is undone but leaves its change time keeps the transaction resumable exactly when it left the change time alone |
| FileSetRecovery.ChangedMemberBlocksRecovery | crates/squallz-core/src/output_set.rs:686-716 | after somebody changed a member's file recovery can go on exactly when contents, size and modification time are as before, and the change time too while it is staged |
| FileSetRecovery.MemberNamedLikeJournalBlocksRecovery | crates/squallz-core/src/output_set.rs:947-955 | a member with the journal's name makes the transaction unresumable |
| FileSetRecovery.PreparedIsRecoverable | crates/squallz-core/src/output_set.rs:449-501 | for a prepared set with its journal published recovery can resume exactly when no two members are links to one file and none has the journal's name |
| FileSetRecovery.LinkedMembersBlockRecovery | crates/squallz-core/src/output_set.rs:449-501 | two members that are links to one file make a journal that recovery never accepts |
| FileSetRecovery.TwoLinksAreAcceptedAndStuck | crates/squallz-core/src/output_set.rs:112-247 | a directory with two such members that preparation accepts |
| FileSetPreparation.SortMembers | crates/squallz-core/src/output_set.rs:203-235 | the members sorted by name, each kept |
| FileSetPreparation.PublicationOrder | crates/squallz-core/src/output_set.rs:203-235 | a permutation of the members in name order with the primary last |
| FileSetPreparation.BindMembers | crates/squallz-core/src/output_set.rs:112-202 | binds each staged name to what some moment showed; undisturbed it succeeds exactly when every one is distinct, free and a regular file, and else fails for the first that is not |
| FileSetPreparation.HashMembers | crates/squallz-core/src/output_set.rs:597-640 | success means that each staged file was found once more exactly as bound, contents included; undisturbed it succeeds exactly when all are as bound |
| FileSetPreparation.Prepare | crates/squallz-core/src/output_set.rs:112-247 | undisturbed it succeeds exactly on a preparable set, with all members bound, primary last; whatever happens, a recorded member was there as recorded at some moment |
| FileSetPreparation.PreparedStartsChain | crates/squallz-core/src/output_set.rs:112-247 | a prepared set starts the chain exactly when no two members are links to one file and none has the journal's name; links elsewhere do no harm |
| DestinationSnapshot.Snapshot.RecordPointLookup | crates/squallz-core/src/layout.rs:746-759 | a refused directory is remembered only within budget; the cache stays valid |
| DestinationSnapshot.Snapshot.CacheNode | crates/squallz-core/src/layout.rs:761-772 | a node is kept only within the node and byte budgets; the cache stays valid |
| DestinationSnapshot.Snapshot.Enumerate | crates/squallz-core/src/layout.rs:597-738 | a readable listing within every budget enters the cache as a whole, any other leaves the directory to single lookups |
| DestinationSnapshot.Snapshot.DirectoryStateOf | crates/squallz-core/src/layout.rs:597-738 | a directory is enumerated at most once, exactly when it is new and within budget; the state returned is the one recorded |
| DestinationSnapshot.Snapshot.NodeAt | crates/squallz-core/src/layout.rs:538-574 | what the cache holds or implies is answered without a lookup, anything else by one; on a coherent destination the answer is that of a direct lookup |
| SnapshotWalk.WalkExactly | crates/squallz-core/src/layout.rs:477-536 | in terms of lookups alone: exactly when the walk to a target fails, when it reports a conflict, which is when a file is to be where something is, and when it finds a directory |
| SnapshotWalk.WalkArrives | crates/squallz-core/src/layout.rs:497-527 | where each directory on the way can be entered, the last lookup gives the answer and the node |
| SnapshotWalk.WalkStops | crates/squallz-core/src/layout.rs:492-520 | otherwise the first directory that cannot be entered does, by what it is |
| DestinationSnapshot.Snapshot.Conflicts | crates/squallz-core/src/layout.rs:477-536 | on a coherent destination returns exactly what the same walk over direct lookups returns, after any calls, with any budget, whatever the hash collisions; without that hypothesis a fresh snapshot with room returns the walk over the destination as it sees it |
| SnapshotAgreement.FreshAgreesExactly | crates/squallz-core/src/layout.rs:477-574 | for every hash, a fresh snapshot with room answers like lookups on every target at any depth exactly when listing and lookups agree in each listed directory that lookups reach |
| SnapshotAgreement.TakenRightExactly | crates/squallz-core/src/layout.rs:538-574 | names of one directory are answered right exactly when listing and lookups agree there, up to aliases and colliding hashes |
| SnapshotAgreement.InfersExactly | crates/squallz-core/src/layout.rs:547-572 | a listing that was just read implies exactly the absences of names that alias no listed one and whose hash collides with none on the way |
| SnapshotAgreement.OnlyLongPlainNamesAreInferred | crates/squallz-core/src/layout.rs:547-566 | an absence is inferred only for a long plain name without tilde in a listing of names that cannot be its alias, or from an empty listing |
| SnapshotAgreement.CoherentAgrees | crates/squallz-core/src/layout.rs:538-574 | a coherent destination meets that condition, whatever the hash |
| SnapshotAgreement.UnsearchableDirectory | crates/squallz-core/src/layout.rs:538-574 | on a destination that can be listed and not searched it answers where the lookup fails, with the default budget |
| SnapshotAgreement.PointLookupsAgree | crates/squallz-core/src/layout.rs:568-574 | a destination left to single lookups is answered like lookups right below it, coherent or not |
| DestinationSnapshot.UnlistedIsMissing | crates/squallz-core/src/layout.rs:547-572 | a name that is absent from a complete listing and cannot alias a listed one is missing |
| DestinationSnapshot.AccountedGrows | crates/squallz-core/src/layout.rs:746-772 | cached path bytes equal the key lengths of nodes and directories; a directory refused once cannot be enumerated into the cache later |
| DestinationSnapshot.RecordKeeps | crates/squallz-core/src/layout.rs:746-759 | recording a directory state keeps the budgets and the byte count |
| DestinationSnapshot.InsertKeeps | crates/squallz-core/src/layout.rs:761-772 | inserting a node keeps the budgets and the byte count |
| DestinationSnapshot.AdoptKeeps | crates/squallz-core/src/layout.rs:690-738 | adopting a whole listing keeps the budgets, the byte count and the truth |
| ExtractPlan.PlannedPathConflicts | crates/squallz-core/src/layout.rs:895-931 | the look into map and set is exactly the first-claim rule over the entries planned so far |
| ExtractPlan.RecordPlannedDirectories | crates/squallz-core/src/layout.rs:979-1003 | the set grows by exactly the directories an entry needs |
| ExtractPlan.PlannedDecidesFlag | crates/squallz-core/src/layout.rs:895-931 | map and set decide the flag that the quadratic specification over the earlier entries gives |
| ExtractPlan.PlannedAfter | crates/squallz-core/src/layout.rs:979-1003 | map and set represent the entries planned so far after each entry |
| ExtractPlan.EstimateConflicts | crates/squallz-core/src/layout.rs:252-330 | the one-pass estimate is the number of flagged entries of the specification, or the error of the first failing lookup; on an absent destination it is zero exactly when no two entries clash, without any hypothesis on the file system |
| ExtractEntries.ItemsExactly | crates/squallz-core/src/layout.rs:252-330 | planning fails exactly on an entry with an unsafe path or one the destination cannot take; otherwise each selected file, link and directory is planned, with its compared path and what lookups show there |
| ExtractEntries.EstimateIsZeroExactly | crates/squallz-core/src/layout.rs:252-330 | the estimate for a destination, existing or not, is zero exactly when nothing is where a file or link is to be and no two entries clash |
| ExtractEntries.FileAboveExactly | crates/squallz-core/src/layout.rs:895-931 | an entry below a planned file is flagged exactly when no directory is there and no earlier entry needs one |
| ExtractPlan.AbsentDestinationItems | crates/squallz-core/src/layout.rs:252-330 | on an absent destination no entry conflicts with what is there or finds a directory there |
| ExtractPlan.ZeroMeansNoClash | crates/squallz-core/src/layout.rs:252-330 | for such entries the count is zero exactly when no two of them clash |
| ExtractPlan.ZeroIsOrderIndependent | crates/squallz-core/src/layout.rs:252-330 | whether the estimate of an absent destination is zero, and whether it fails, is the same for every order of the archive's entries |
| ExtractPlan.CountDependsOnOrder | crates/squallz-core/src/layout.rs:252-330 | the number itself does: three entries that count two or one |
| ExtractOrder.FlagExactly | crates/squallz-core/src/layout.rs:252-330 | where no file is split, which entries are flagged, from what comes before each |
| ExtractOrder.SplitCountsDiffer | crates/squallz-core/src/layout.rs:252-330 | a split file first counts more than the same file after what splits it, whatever follows |
| ExtractOrder.CountIsOrderFreeExactly | crates/squallz-core/src/layout.rs:252-330 | the count is the same for every order of the planned entries exactly when no file has its path made a directory in two separate ways |
| ExtractOrder.EstimateIsOrderFreeExactly | crates/squallz-core/src/layout.rs:252-330 | the same for every order of the archive's own entries, with their errors and skipped entries |
| ExtractPlan.AnalyzeLayout | crates/squallz-core/src/layout.rs:144-184 | extracts directly exactly when all named entries are below one directory |
| TreeStream.TreeDecodes | crates/squallz-core/src/destination_guard.rs:819-944 | equal content streams are streams of equal trees: names, identities, metadata, contents, targets |
| TreeStream.StabilityDecodes | crates/squallz-core/src/destination_guard.rs:1006-1109 | equal stability streams are streams of trees with equal stamps |
| TreeScan.Budget.Enter | crates/squallz-core/src/destination_guard.rs:781-787 | counts one visit and refuses beyond the limit |
| TreeScan.Budget.ReservePending | crates/squallz-core/src/destination_guard.rs:795-805 | reserves exactly so many pending entries and refuses beyond the limit |
| TreeScan.Observer.MemberState | crates/squallz-core/src/destination_guard.rs:966-1004 | a state was seen at some instant; an object that stays the same is always accepted |
| TreeScan.CollectChildren | crates/squallz-core/src/destination_guard.rs:1081-1093 | the sorted listing of one instant, reserved; refused only when the visit limit would be exceeded |
| TreeScan.StabilityEntry | crates/squallz-core/src/destination_guard.rs:1058-1109 | a success fed exactly the stability stream of a tree seen in this time, within the limits; pending entries are restored on every exit; on an unchanging tree it fails only beyond a limit |
| TreeScan.StabilityChildren | crates/squallz-core/src/destination_guard.rs:1081-1108 | the same for the children of a directory and its closing check |
| TreeDigest.ReadConstant | crates/squallz-core/src/destination_guard.rs:1124-1161 | bytes read piecemeal from a file that stays the same are its contents |
| TreeDigest.ReadAll | crates/squallz-core/src/destination_guard.rs:1141-1150 | each byte fed was in the file at some instant, and the end was seen |
| TreeDigest.Position | crates/squallz-core/src/destination_guard.rs:915-919 | binary search in the sorted listing finds a name exactly when it is there |
| TreeDigest.RelistingAccepts | crates/squallz-core/src/destination_guard.rs:906-938 | the `seen` check accepts exactly the permutations of the first listing |
| Sequences.PermutationKeepsCounts | crates/squallz-core/src/destination_guard.rs:906-938 | such a permutation has the same members with the same multiplicities |
| TreeDigest.HashedIsThere | crates/squallz-core/src/destination_guard.rs:819-944 | what a scan read of a tree that stayed the same is that tree |
| TreeDigest.SameTreeSameBytes | crates/squallz-core/src/destination_guard.rs:819-944 | trees that agree in what is covered have the same stream |
| TreeHash.CollectMembers | crates/squallz-core/src/destination_guard.rs:883-898 | the first listing, sorted and reserved, and each member with a state that was seen after it |
| TreeHash.Relist | crates/squallz-core/src/destination_guard.rs:905-924 | a success means that the directory listed the same names again at one instant and each member was seen in the same state |
| TreeHash.HashSymlink | crates/squallz-core/src/destination_guard.rs:841-862 | a success fed identity, metadata and a target that was read twice with the link unchanged in between; a link that stays the same succeeds |
| TreeHash.HashFile | crates/squallz-core/src/destination_guard.rs:1124-1161 | a success fed identity, metadata and the bytes read, the open file still had that metadata, and then the path still led to it; a file that stays the same succeeds |
| TreeHash.HashEntry | crates/squallz-core/src/destination_guard.rs:819-944 | a success fed exactly the content stream of what was read in this time; pending entries are restored on every exit; on an unchanging tree without special files it fails only beyond a limit |
| TreeHash.HashDirectory | crates/squallz-core/src/destination_guard.rs:879-943 | the same for a directory, which was listed twice with the same names and had its first stamp at the end |
| TreeHash.HashChildren | crates/squallz-core/src/destination_guard.rs:899-904 | the loop over the sorted members feeds exactly their streams in order |
| TreeSnapshot.FreshChangeTimesSettle | crates/squallz-core/src/destination_guard.rs:1227-1238 | if every change of an object, its entries or its place gives it a fresh change time, then a path that shows the same stamp twice did not change in between |
| TreeSnapshot.StillBetween | crates/squallz-core/src/destination_guard.rs:647-680 | two scans with equal stamps mean that the tree stayed what the first saw, under any writer |
| TreeSnapshot.TreeStability | crates/squallz-core/src/destination_guard.rs:670-680 | on an unchanging tree it succeeds exactly within the entry and depth limits |
| TreeSnapshot.PathStateDigest | crates/squallz-core/src/destination_guard.rs:647-668 | absent exactly when the first look finds nothing; a digest is that of the tree as it was at every instant between the two stability scans; an unchanging tree is digested exactly when it keeps the limits and has no special file |
| TreeSnapshot.EqualDigestsEqualTrees | crates/squallz-core/src/destination_guard.rs:604-615 | equal digests were taken of equal trees |
| Naming.IndexOfCandidate | crates/squallz-core/src/destination_guard.rs:349-361 | the number printed into a candidate is read back when the extension has no closing parenthesis |
| Naming.IndexIgnoresNumber | crates/squallz-core/src/destination_guard.rs:349-361 | otherwise what is read does not depend on the number |
| Naming.IndexIgnoresCase | crates/squallz-core/src/destination_guard.rs:349-361 | the number read does not depend on letter case |
| Naming.CompoundKept | crates/squallz-core/src/destination_guard.rs:380-413 | a compressed tar archive keeps both extensions after the number, in any letter case |
| Naming.PlainKept | crates/squallz-core/src/destination_guard.rs:380-413 | other names keep what follows the last dot |
| Naming.NoDotKept | crates/squallz-core/src/destination_guard.rs:380-413 | a name without a dot gets the number at its end |
| Naming.NumberedConflicts | crates/squallz-core/src/destination_guard.rs:287-334 | the single pass collects exactly the numbers that some entry occupies, by its own name or as a member of a split family |
| Naming.FindAvailable | crates/squallz-core/src/destination_guard.rs:170-214 | the requested name exactly when it and its family are free, otherwise the least number not collected; it agrees with probing every candidate when the pass finds in each entry what probing would; the search always ends |
| Naming.CollectsOwnNumber | crates/squallz-core/src/destination_guard.rs:287-334 | an entry gives at most one number, the one read from its name |
| Naming.ManagedIndex | crates/squallz-core/src/destination_guard.rs:287-334 | a volume suffix does not change the number that is read |
| Naming.OrderlyPassAgrees | crates/squallz-core/src/destination_guard.rs:287-361 | for an orderly base the pass finds what probing would, with any comparison that identifies at most letter case |
| Naming.CaseKeepsNumber | crates/squallz-core/src/destination_guard.rs:363-378 | so under exact and under ASCII-case-insensitive comparison |
| Naming.SearchIsRightExactly | crates/squallz-core/src/destination_guard.rs:170-214 | the number picked for a taken destination is free, with its whole family, on every snapshot exactly when the extension has no closing parenthesis and a split base neither looks like a volume nor has native parts |
| Naming.TakenButPicked | crates/squallz-core/src/destination_guard.rs:287-361 | otherwise there is a snapshot on which an occupied number is picked |
| Naming.NativePart | crates/squallz-core/src/volumes.rs:335-416 | a left-over native part belongs to the family of the number that is picked |
| Naming.DoublySplit | crates/squallz-core/src/destination_guard.rs:734-749 | with a base that itself looks like a volume an occupied number is picked too |
| SplitFamily.SplitBaseExactly | crates/squallz-format-api/src/registry.rs:61-72 | exactly which names are numbered volumes, and of what |
| SplitFamily.WrittenIsMember | crates/squallz-core/src/volumes.rs:517-520 | every volume that is written is found in the family of its base, where it was written |
| SplitFamily.WrittenRecoveryIsMember | crates/squallz-core/src/volumes.rs:526-548 | so is every recovery volume |
| SplitFamily.NativePartsAreMembers | crates/squallz-core/src/volumes.rs:364-416 | native ZIP and WIM parts are members of the family of their first or last part |
| Naming.ParenthesisExample | crates/squallz-core/src/destination_guard.rs:380-413 | "a.b)c" is such a name |
| ExtractGuard.GuardBinds | crates/squallz-core/src/extract_guard.rs:127-168 | equal guard streams mean equal source state, entry metadata, mode and selection |
| ExtractGuard.ReadEntry | crates/squallz-core/src/extract_guard.rs:146-239 | one entry can be read back from the front of a stream, and where it ends |
| ExtractGuard.BuildGuard | crates/squallz-core/src/extract_guard.rs:127-168 | the loop feeds exactly the specified stream |
| InputMerge.ChoosePreferred | crates/squallz-core/src/inputs.rs:493-517 | keeps exactly the earliest deepest candidate of each source; fails exactly for the first candidate whose source is unknown or which differs from an earlier one of its source |
| InputMerge.IndexDirectories | crates/squallz-core/src/inputs.rs:519-532 | maps each root and name to its first directory |
| InputMerge.MarkAncestors | crates/squallz-core/src/inputs.rs:533-549 | marks exactly the first same-root directories whose names are ancestors |
| InputMerge.Deduplicate | crates/squallz-core/src/inputs.rs:488-560 | returns exactly the preferred candidates and the directories above them, in input order; succeeds exactly when every candidate has a source and those of one source agree, and else fails for the first candidate that does not |
| InputMerge.DepthCountsComponents | crates/squallz-core/src/inputs.rs:562-567 | the depth of a name is the number of its non-empty components |
| InputMerge.NestedNameWins | crates/squallz-core/src/inputs.rs:508-517 | of two names of one source where one is the other with directories in front, the longer wins; the other survives only as a directory above a survivor |
| InputMerge.NestedFileStaysInside | crates/squallz-core/src/inputs.rs:508-517 | so a file that is also reached through a directory is not moved out of it |
| InputMerge.NonDirectoriesOnce | crates/squallz-core/src/inputs.rs:488-560 | each source that is not a directory survives exactly once |
| InputMerge.MergeIsIdempotent | crates/squallz-core/src/inputs.rs:488-560 | merging the survivors again, with their roots, changes nothing |
| InputMerge.MergedIsParentClosed | crates/squallz-core/src/inputs.rs:519-548 | each directory listed above a survivor by its root survives too, before it |
| PathFilter.New | crates/squallz-core/src/filter.rs:26-51 | compiles exactly the variants of the patterns, and fails exactly when one is invalid |
| PathFilter.MatchesAreClosed | crates/squallz-core/src/filter.rs:90-101 | everything below a matching path matches, for any base matcher with recursive wildcards |
| PathFilter.LiteralPattern | crates/squallz-core/src/filter.rs:26-51 | a pattern without wildcards excludes, if bare, each entry of that name at every depth, with a slash only that one path, in both cases with all below, and if empty nothing |
| InputWalk.ExcludedSubtree | crates/squallz-core/src/inputs.rs:588-616 | below an excluded path or name nothing survives, so pruning loses nothing else |
| InputWalk.WalkNamed | crates/squallz-core/src/inputs.rs:588-681 | emits exactly the full preorder without what is excluded; fails exactly when something that is not excluded cannot be archived or read or its path is refused, or, with metadata before names, when that happens to something excluded only by its own name |
| InputWalk.OrderMattersForExcluded | crates/squallz-core/src/inputs.rs:602-613 | at a name that is excluded the walk with names first succeeds, and the one with metadata first exactly when metadata can be read and the path is not refused |
| InputWalk.OrderMattersExactly | crates/squallz-core/src/inputs.rs:602-613 | on a whole tree only the order with names first succeeds exactly when there is such an entry that cannot be looked at and nothing else is in the way; never only the other |
| InputWalk.FoundLookups | crates/squallz-core/src/inputs.rs:602-613 | where everything can be read and no path is refused the order of the checks does not matter |
| InputWalk.SurvivorsKeepParents | crates/squallz-core/src/inputs.rs:634-665 | the directories above an emitted name are emitted before it |
| InputWalk.CollectInputs | crates/squallz-core/src/inputs.rs:440-486 | the manifest is the merge of what the roots emit, or all of it when not deduplicating; it fails exactly on an artifact, on what the walk fails on, or when the merge fails |
| InputWalk.CollectedIsPreordered | crates/squallz-core/src/inputs.rs:440-486 | over all roots, each directory is listed before what is in it |
| InputWalk.ManifestIsParentClosed | crates/squallz-core/src/inputs.rs:440-560 | for each item of the manifest every directory its root emitted above it is in the manifest, before it |
| InputWalk.FilterClosesNames | crates/squallz-core/src/filter.rs:26-62 | a compiled filter satisfies what the walk relies on |
| OwnerRecord.ParseOfPrint | crates/squallz-core/src/plaintext.rs:48-95 | a printed record parses to itself |
| OwnerRecord.PrintOfParse | crates/squallz-core/src/plaintext.rs:61-95 | what parses is exactly the printed form, so a record names at most one file |
| OwnerRecord.NewRecordIsValid | crates/squallz-core/src/plaintext.rs:158-177 | a new record has a valid workspace name and token |
| OwnerRecord.TokenDecides | crates/squallz-core/src/plaintext.rs:40-47 | two records with one token have the same sequence number and time |
| OwnerRecord.NewRecordReadsBack | crates/squallz-core/src/plaintext.rs:354-371 | a new record is at most 512 bytes long and is read back as itself |
| OwnerRecord.PrefixesThatParse | crates/squallz-core/src/plaintext.rs:61-95 | of the beginnings of a printed record exactly the whole and the one that ends before the file name parse, the latter without a file name |
| OwnerRecord.FallbackIsPortable | crates/squallz-format-api/src/safety.rs:66-100 | the fallback names pass the portability rules |
| OwnerRecord.PreviewNameIsSafe | crates/squallz-core/src/plaintext.rs:498-514 | the name chosen for a preview file is safe, whatever is displayed |
| OwnerRecord.LastComponentExactly | crates/squallz-core/src/plaintext.rs:502-512 | the extension of a display name is that of its last proper component |
| OwnerRecord.SafeNameIsOneComponent | crates/squallz-core/src/plaintext.rs:487-496 | a safe name is one path component of at most 255 bytes and never the marker's name |
| OwnerRecord.OrdinaryNamesAreKept | crates/squallz-core/src/plaintext.rs:498-514 | an ordinary name is kept as it is |
| OwnerRecord.DeviceNamesAreUnsafe | crates/squallz-format-api/src/safety.rs:66-96 | device names are refused with any extension and in any letter case |
| Workspaces.StartIsSound | crates/squallz-core/src/plaintext.rs:151-156 | processes can start on an empty registry |
| Workspaces.StepKeeps | crates/squallz-core/src/plaintext.rs:151-352 | every step of every process, crashes and intruders included, keeps the invariant |
| Workspaces.CleanKeeps | crates/squallz-core/src/plaintext.rs:289-352 | each step of a removal keeps it, also when it stops early |
| Workspaces.MakeKeeps | crates/squallz-core/src/plaintext.rs:158-189 | each step of creation keeps it, torn writes included |
| Workspaces.RunKeeps | crates/squallz-core/src/plaintext.rs:151-352 | so does every run |
| Workspaces.PlaintextIsAccountedFor | crates/squallz-core/src/plaintext.rs:198-209 | in every reachable state plaintext has a complete matching marker, a directory and a complete owner record |
| Workspaces.LockedIsLeftAlone | crates/squallz-core/src/plaintext.rs:271-275 | no step of another process touches a workspace whose owner lock is held |
| Workspaces.ForeignMembersStay | crates/squallz-core/src/plaintext.rs:331-339 | a member the record does not allow is never removed |
| Workspaces.AllowedExactly | crates/squallz-core/src/plaintext.rs:97-102 | exactly which members count as plaintext of a workspace; the marker is none |
| Workspaces.CrashInCleanupIsReclaimable | crates/squallz-core/src/plaintext.rs:289-352 | wherever a removal is cut off, its check included, what is left can be reclaimed |
| Workspaces.CrashedOwnerIsReclaimable | crates/squallz-core/src/plaintext.rs:241-245 | so can the workspace of a crashed process, also when its close was begun or has failed |
| Workspaces.AbandonedUntilGone | crates/squallz-core/src/plaintext.rs:247-287 | along every run without intruders an abandoned workspace is gone at some moment, or is being removed, or can be reclaimed |
| Workspaces.CrashedOwnerIsDisposedOf | crates/squallz-core/src/plaintext.rs:241-287 | so after the crash of an owner at any point of its life |
| Workspaces.CrashInCleanupIsDisposedOf | crates/squallz-core/src/plaintext.rs:247-352 | and after a crash at any point of a removal |
| Workspaces.CrashInCreation | crates/squallz-core/src/plaintext.rs:158-189 | a crash in creation leaves something that can be reclaimed exactly between the end of the record and the opening of the marker, with nothing foreign in the directory, or when the record was cut off right before its file name |
| Workspaces.StuckStays | crates/squallz-core/src/plaintext.rs:271-282 | an abandoned workspace whose record cannot be read or whose check fails stays as it is along every run |
| Workspaces.CrashInCreationIsSettled | crates/squallz-core/src/plaintext.rs:158-287 | so along every run after a crash in creation the workspace is disposed of in the first case, and otherwise stays for ever without plaintext |
| WorkspaceRegistry.OthersLeaveAlone | crates/squallz-core/src/plaintext.rs:247-287 | while one process holds the sweep lock the others change nothing it works on |
| WorkspaceRegistry.Registry.Step | crates/squallz-core/src/plaintext.rs:289-352 | one step of a removal among steps of others: the next stage or the exact stop |
| WorkspaceRegistry.Registry.CleanupOwned | crates/squallz-core/src/plaintext.rs:279-284 | a removable workspace is gone afterwards; other abandoned ones stay reclaimable |
| WorkspaceRegistry.Registry.ReclaimStale | crates/squallz-core/src/plaintext.rs:247-287 | afterwards every workspace that was abandoned in a removable state is gone, among arbitrary steps of other processes; a registry with too many entries makes it fail, and then this holds for the owner files it came to, and the others can still be reclaimed |
| WorkspaceRegistry.Registry.ReclaimAbandoned | crates/squallz-core/src/plaintext.rs:247-287 | the next undisturbed scan removes what was abandoned any number of steps before and is still there |
| WorkspaceRegistry.Registry.Close | crates/squallz-core/src/plaintext.rs:215-238 | a live workspace with nothing foreign in it is gone afterwards, also when an earlier close has failed |
| WorkspaceRegistry.Registry.Create | crates/squallz-core/src/plaintext.rs:151-192 | reclaims; succeeds exactly when the registry can be scanned and one of the names it tries is free after the scan, and takes the first such name; a success is live and locked, with a complete record for the requested file and a directory with a complete marker and no plaintext |
| SharedSource.Source.Lock | crates/squallz-core/src/compound.rs:87-98 | after a panic no remembered position is trusted |
| SharedSource.Source.NewReader | crates/squallz-core/src/compound.rs:35-40 | a new reader starts at the beginning and has returned nothing |
| SharedSource.Reader.Read | crates/squallz-core/src/compound.rs:49-85 | returns what a private stream would return next; any failure leaves the cursor; on a reliable stream it never fails, whatever happened before |
| SharedSource.Interleave | crates/squallz-core/src/compound.rs:35-85 | under any schedule of opening and reading each reader has returned a beginning of the content and only appended to it; on a reliable stream each read gets further until all is returned |

## Left out

- FileSetVolume.Volume.PublishFile: leaves out the temporary file; the journal appears whole or not at all, its codec is exact, and which records exceed the size limit is a parameter.
- FileSetPublication.VerifyBindings: leaves out the identity of the parent directory; nobody moves that directory in the model.
- The lock of a primary is no part of the state; what it keeps others from doing is what the environment may not do.
- Identity check and unlink are one step, and so are identity, metadata and hashed contents of one look at a staged file; the code does not make them atomic.
- A staged member that is itself the journal of another publication.
- Totals of `ExtractScope`, disk space, wrapped destinations and path sanitising: they add sums and unseen helpers.
- Naming.FindAvailable: leaves out destinations without a file name.
- Naming.SearchIsRightExactly: is about exact comparison; other ways for two names to reach one file, beyond letter case, are a hypothesis of `FindAvailable`.
- FileSetPreparation.Prepare: gives the kinds of its errors, not their texts; a staged path that cannot be opened counts as unsupported.
- PathFilter.LiteralPattern: what a glob does with text without wildcards is a hypothesis.
- Guard tokens in hexadecimal, and the source member hash of an extraction guard.
- Permissions, ownership and file kinds of workspace members, and identities of owner files and markers: a member is known by its name.
- The scan of a registry lists the entries that were there when it began.
- When members are re-listed, the code compares each as it reads it; `Relist` reads all and then compares.
- Prepared input handles, the mapping of collected items, progress reports and cancellation, which is one more early exit.
- Windows variants of identities, times, attributes and name order.
- Glob matching and the native alias rule are parameters; so is the portability of names in `Workspaces`.
- SharedSource.Source.constructor: requires content shorter than 2^64 bytes; beyond that the overflow error leaves the remembered position stale.
- TreeSnapshot.PathStateDigest: does not model the snapshot of split families, which digest each member by itself.
- Presets, checksums, duplicate search, passwords, conversion, external actions, archive engines and user interfaces: orchestration or engines that would add only easier members.
