# A verified model of the kernel's file system, process machine and shell paths

This project models three parts of a small teaching kernel in Dafny and proves properties of them
over all inputs and whole runs.

**The FAT driver.** An allocator over a map of 512 clusters, directory tables of 64 entries of 32
bytes, and a cluster map cached in memory that has to agree with cluster 1 of the disk. `Layout`
fixes the bytes, `Disk` is the memory-backed disk, `FatState` says what each request returns and
leaves behind, `FatDriver` is the driver itself (a class over an array of words and the disk
image), proved to do what `FatState` says. `FatInvariant` states what every reachable state
satisfies, against a book that names one owner for each cluster and a depth for each directory;
`FatLink`, `FatUnlink`, `FatRequests` and `FatRemoval` prove that requests keep it, and exactly
when. `FatFiles`, `FatTheorems`, `FatTree` and `FatRun` say what it means: the file system is a map
from (directory, name, extension, kind) to nodes. `FatAnswers` tells every return code from that map,
the slots of the directory and the set of free clusters. `FatReads` says what a request, and a whole
run of them, does to what `read` gives for a file; `FatExamples` holds runs from a fresh disk that meet
the cases the theorems leave open.

**The process machine.** `Paging` is the page-frame allocator, `Processes` the control blocks and
the round-robin scheduler as a machine whose steps are create, timer tick, terminate and kill,
`ProcessRuns` what holds over every run of it, `ProcessContexts` where a process goes on when it gets
the processor back, `ProcessPids` who has a pid, `ProcessManager` the routines in place on the list of
control blocks, `ProcessExamples` states a boot reaches.

**The shell's working directory.** `ShellPaths` edits, cuts and prints path strings in their
buffers; `ShellWalk` says where a path leads on the tree of the first part; `Shell` is the session
that `cd` changes; `ShellRun` relates it to a file system that changes; `ShellExamples` holds disks
on which names mislead it, `ShellDepth` one on which a path overruns its buffer.

## How the model stands to the code

- Each imperative routine is a method over the same arrays and fields, with the same loops, and is
  proved equal to a function on values; the theorems are about those functions. Ghost parameters
  (`s`, `b`, `g`, `a`, `p`, `chain`, ...) carry the values a method starts from. Where a routine is
  long its branches and loops are methods of their own.
- The cached map is modelled with one word more than it has: in the packed driver state the word
  behind it is the first word of `dir_table_buf`, and the admission scan
  (`src/fat32.c:58-61`) and the partition loop (`src/fat32.c:272`) can both reach it.
- The clusters written for a format come from a one-block constant; what follows it in memory is
  the parameter `tail`.
- Characters are bytes. A path buffer holds a text and zeros behind it.

## Where the code does not do what it seems meant to do

Where a condition decides, it is a theorem in both directions; the member named after a semicolon is
a state or an input that meets it.

- The admission check accepts a file that needs one cluster more than are free when the word behind
  the map is zero, which it is after a remount. The write then links a cluster behind the map
  (`FatRequests.AdmissionIsExact`, `FatRequests.WriteKeepsExactly`; `FatRun.RemountOverAdmits` is a
  case of it). Runs from a fresh format without remounts and without directory names that start with
  four zero bytes never meet it (`FatRun.FreshRunsNeverOverAdmit`).
- `Delete` searches the headers too. In an empty directory a request with that directory's own name
  frees the directory itself and leaves its entry behind (`FatRemoval.DeleteKeepsExactly`;
  `FatRun.RootDeletesItself` is a case of it).
- `read` and `Delete` ignore the attribute, `write` compares it, so an entry of the other kind, or a
  header, can shadow a new file (`FatTheorems.WriteThenRead`, `FatTheorems.WriteThenDelete`; a file
  called `root` in `FatExamples.RootShadowsFile`).
- For the same reason a new directory can take away a file that was there: `read` of the file goes
  from 0 to 1, although no request named the file (`FatReads.ReadStaysAfterWrite`,
  `FatReads.RunKeepsRead`; `FatExamples.DirectoryHidesFile` is a run that does it). No other request
  disturbs a file but its own deletion (`FatReads.OtherFilesStay`).
- A request with an all-zero name and extension matches an unused entry and sends the chain loops
  off the map (`FatDriver.TargetReadyExactly`; `FatExamples.BlankKeyLeavesMap`).
- The header of `read` lists code 2 for a small buffer and 3 for not found
  (`src/header/filesystem/fat32.h:228`); the code returns -1 and 2. The model follows the code.
- Process creation asks the page allocator for a count of frames where it takes bytes, and ignores
  allocations that fail (`ProcessRuns.CreationHasPagesWhen`; `ProcessExamples.CreationWithoutPages`).
- Ending a process gives back neither its frames nor its directory nor its place in
  `active_process_count` (`ProcessRuns.FramesAreRationed`, `ProcessRuns.DirectoriesAreRationed`,
  `ProcessRuns.CreationsAreRationed`); with nobody else ready its cleared slot is marked as running
  (`ProcessRuns.TerminateFreesWhen`; `ProcessExamples.LastOneLeavesItsSlot`).
- Such a process stays live without a pid. It is saved by the next tick, waits like any other and gets
  the processor again; there is never more than one (`ProcessPids.RunKeepsMarks`;
  `ProcessExamples.EndedOneGoesOn`).
- Free slots have pid 0, so `kill_process(0)` reports success whenever one is free
  (`ProcessPids.ZeroIsFound`).
- A creation whose program cannot be read keeps its directory and its frames. The 32 directories and
  the 31 frames go to the creations that get as far as reading, successful or not, and never come
  back (`ProcessRuns.ThirtyTwoDirectories`, `ProcessRuns.FramesAreRationed`). From then on processes
  are created without all their pages (`ProcessRuns.PagesRunOutWhen`).
- Freeing the kernel's own page gives frame 0 away, and allocating over it or in a directory not in
  use breaks the allocator (`Paging.FreeKeepsExactly`, `Paging.AllocateKeepsExactly`;
  `Paging.KernelPageGoes`, `Paging.UnusedDirectoryFills`).
- The shell looks for a name without its extension. A file or a directory with the same name and
  another extension can hide a directory, and `cd` with that directory's own path then goes elsewhere
  or fails (`ShellWalk.PathLeadsHome`, `Shell.CdToItsPath`; `ShellExamples.FileHidesDirectory`).
- Two directories in one place with the same name and different extensions go by the same path
  (`ShellWalk.PathsDifferExactly`; `ShellExamples.ExtensionsShareAPath`).
- `parse_path` counts components in eight bits: a line of 256 components is reported to have none,
  and `cd` stays where it is (`ShellPaths.ReportedIsCount`; `ShellPaths.CountWraps`,
  `Shell.LongPathStays`).
- `..` at the root repeats for ever (`ShellWalk.WalkStuckWhen`), and `cd /` moves to the root but
  reports an error (`Shell.CdToRootIsRefused`).
- The path buffer is not checked for its end. A path overruns it when it names a directory whose own
  path has 512 characters or more, and only then (`ShellWalk.WalkOverflowsWhen`). Up to 56 levels
  always fit (`ShellWalk.NeverOverflows`); 57 need not (`ShellDepth.DeepNestOverruns`).

## Model

| member | source | states |
|---|---|---|
| Layout.BlankIsZero | src/header/filesystem/fat32.h:81-97 | an entry reads as unused exactly when all its 32 bytes are zero |
| Layout.SetSlotTable | src/header/filesystem/fat32.h:100-102 | replacing one slot of a directory cluster replaces that entry of the table and no other |
| Layout.SetSlotUndone | src/fat32.c:336-339 | putting the old slot back restores the cluster byte for byte |
| Layout.MakeEntryDecodes | src/fat32.c:24-32 | an initialised entry reads back with its name, extension, attribute, cluster number joined from two halves, and size, and keeps its time fields |
| Layout.FatRoundTrip | src/fat32.c:118 | a map written to its cluster and read back is the same map |
| Disk.MemCopy | src/external-inserter.c:15-19 | copying changes exactly n bytes of the destination |
| Disk.BlockDevice.ReadBlocks | src/external-inserter.c:13-21 | the block loop reads the contiguous bytes of all its blocks |
| Disk.BlockDevice.WriteBlocks | src/external-inserter.c:23-31 | the block loop overwrites exactly the bytes of its blocks |
| Disk.BlockDevice.ReadClusters | src/fat32.c:126-128 | through the cluster-to-block scaling, `count` clusters arrive in order and the rest of the buffer is left alone |
| Disk.BlockDevice.WriteClusters | src/fat32.c:122-124 | the bytes of `count` clusters of the image change and no others |
| Disk.BlockDevice.ReadCluster | src/fat32.c:126-128 | with a count of one, the cluster arrives and the rest of the buffer is left alone |
| Disk.BlockDevice.WriteCluster | src/fat32.c:122-124 | with a count of one, one cluster of the whole image changes and no other |
| Disk.CutOfSplice | src/fat32.c:20-22 | overwriting the bytes of one cluster changes that cluster of the image and no other |
| Disk.WrittenIsRead | src/fat32.c:122-128 | clusters written and read back are those written, and all others are as they were |
| Disk.CutIsInjective | src/external-inserter.c:10 | two images with equal clusters are equal, so a claim about all clusters is one about every byte |
| FatState.FirstFree | src/fat32.c:34-43 | the first empty word of the map, everything before it used |
| FatState.PicksAll | src/fat32.c:268-278 | as many clusters are picked as are asked for and free |
| FatState.Parts | src/fat32.c:255 | the least number of clusters that hold the size |
| FatState.Find | src/fat32.c:174-184 | the first entry with this name and extension, headers included |
| FatState.FindSame | src/fat32.c:217-233 | the first entry with this name, extension and attribute behind the headers |
| FatState.FindUnused | src/fat32.c:223-227 | the first entry not in use |
| FatState.FindName | src/fat32.c:144-153 | the first entry with this name behind the headers, whatever its extension |
| FatState.NewTableDecodes | src/fat32.c:66-88 | a new directory table holds its own header, its parent's and nothing else |
| Chains.LinkedIsChain | src/fat32.c:197-201 | following the map from the first cluster of a linked list finds exactly that list |
| Chains.ChainFrame | src/fat32.c:268-279 | changing words off a chain does not change the chain |
| Chains.PicksAreFree | src/fat32.c:268-279 | the picked words are free and in increasing order |
| Chains.PicksAreFirst | src/fat32.c:268-279 | and they are the first: a free word that is not picked lies behind all of them |
| Chains.PicksStayInside | src/fat32.c:272-273 | the word behind the map is picked only when the map itself has run out |
| Chains.JoinOfSplit | src/fat32.c:276-280 | the parts of a buffer joined give the buffer back |
| FatInvariant.ChainOwned | src/fat32.c:268-279 | following the map from an owned cluster stays with one owner |
| FatInvariant.ChainEnds | src/fat32.c:279 | and ends in the end-of-file value |
| FatInvariant.FolderEntry | src/fat32.c:239-252 | every directory below the root is pointed at by an entry one level up |
| FatLink.LinkKeepsSound | src/fat32.c:239-282 | claiming free clusters for a new entry keeps the whole invariant |
| FatUnlink.UnlinkKeepsSound | src/fat32.c:326-340 | giving back a chain and clearing its entry keeps the whole invariant |
| FatUnlink.ParentStays | src/fat32.c:311-325 | no directory lies inside itself, so its own cluster is not on a chain it frees |
| FatRequests.ParentKnownWhen | src/fat32.c:206-213 | the requests the theorems leave out are those whose parent reads as a directory and is a free cluster, a part of a file or a cluster behind the map |
| FatRequests.ParentKnownOnClean | src/fat32.c:206-213 | on a clean disk it is no free cluster |
| FatRequests.AdmissionIsExact | src/fat32.c:56-64 | the check admits n clusters exactly when n are free, unless the word behind the map is zero and n is one too many |
| FatRequests.OverAdmitsWhen | src/fat32.c:56-64 | when a write is admitted with too few free clusters |
| FatRequests.PicksPastMap | src/fat32.c:270-275 | with one cluster too many asked for, the word behind the map is picked last, after a cluster of the map |
| FatRequests.WriteChainIsFree | src/fat32.c:260-279 | a write that is not over-admitted claims free clusters from 3 to 511, one for a directory and the fewest that hold a file |
| FatRequests.WriteKeepsInv | src/fat32.c:206-285 | such a write keeps the invariant, whatever its return code |
| FatRequests.OverAdmittedLink | src/fat32.c:269-275 | an over-admitted write links a cluster to the word behind the map |
| FatRequests.WriteKeepsExactly | src/fat32.c:206-285 | a write leaves a well-formed state if and only if it is not over-admitted |
| FatRemoval.NamedFindsUsed | src/fat32.c:295-301 | a request with a name or an extension never finds an unused entry |
| FatRemoval.DeleteKeepsInv | src/fat32.c:287-343 | a delete that is not of the directory it is made in, and finds nothing or an entry in use, keeps the invariant |
| FatRemoval.SelfDeleteLeaves | src/fat32.c:295-301 | what a deletion of the very directory leaves: its cluster free, its entry still there |
| FatRemoval.DeleteKeepsExactly | src/fat32.c:287-343 | a delete that finds nothing or an entry in use leaves a well-formed state if and only if it is not such a self-deletion |
| FatFiles.HoldsOnce | src/fat32.c:215-233 | a directory never holds two entries of one kind with the same name and extension |
| FatFiles.LinkTree | src/fat32.c:239-282 | a new entry adds one key to the map of files and leaves every other node as it was |
| FatFiles.UnlinkTree | src/fat32.c:326-340 | clearing an entry removes its key and leaves every other node as it was |
| FatTheorems.WriteUpdatesTree | src/fat32.c:206-285 | a successful write adds exactly its key, which was new, with the first `buffer_size` bytes or the new directory |
| FatTheorems.DeleteUpdatesTree | src/fat32.c:287-343 | a successful delete removes exactly the key of the entry it lands on |
| FatTheorems.ReadSucceedsWhen | src/fat32.c:166-204 | a read succeeds exactly when its file is in the map, is not shadowed, and fits the buffer |
| FatTheorems.ReadLooksUp | src/fat32.c:193-203 | a successful read delivers the file's bytes and then the rest of its last cluster |
| FatTheorems.WriteThenRead | src/fat32.c:166-285 | reading right after writing gives the bytes written if and only if nothing shadows the file |
| FatTheorems.TargetAfterWrite | src/fat32.c:174-184 | after a write the first match is the new entry, or the one that shadows it |
| FatTheorems.WriteThenDelete | src/fat32.c:206-343 | on a clean disk a delete right after a write restores the disk byte for byte and the cached map, if and only if nothing shadows the new entry |
| FatTheorems.UnlinkUndoes | src/fat32.c:327-340 | undoing a link restores every word and every cluster where the claimed ones held zeros |
| FatTheorems.WriteKeepsClean | src/fat32.c:206-285 | a write keeps every free cluster zero |
| FatTheorems.DeleteKeepsClean | src/fat32.c:331-337 | a delete wipes what it frees |
| FatAnswers.CountIsSize | src/fat32.c:56-64 | the number the free-cluster scans count is the size of the set of empty words |
| FatAnswers.WriteAnswers | src/fat32.c:206-285 | in a live directory a write answers 1 exactly if its key is in the map (or a file without a name meets an unused entry), 0 if not and an entry is unused and enough clusters are free (or one too few in the case of over-admission), and -1 otherwise |
| FatAnswers.NoDirectoryAnswers | src/fat32.c:210-212 | the answers where the parent does not read as a directory, and only there |
| FatAnswers.RefusedChangesNothing | src/fat32.c:206-343 | a write or a delete with a nonzero code leaves disk and map as they were |
| FatAnswers.WriteTakesFirst | src/fat32.c:260-279 | a write takes the first free clusters: with one that it takes it takes every free one before it |
| FatAnswers.NothingFound | src/fat32.c:174-186 | where no entry has the name, headers included, a read answers 2 and a delete 1 |
| FatAnswers.MatchIsKey | src/fat32.c:295-305 | a name that is no header's is found exactly if the map has a file or a directory under it, wherever its entry is |
| FatAnswers.EmptyIsUnfilled | src/fat32.c:315-324 | a directory has no entry in use exactly if no key of the map lies in it |
| FatAnswers.DeleteAnswers | src/fat32.c:295-325 | where some entry is the first of the name a delete answers 2 if that is a directory with something in it, and 0 otherwise |
| FatAnswers.ReadAnswers | src/fat32.c:174-193 | a read answers 1 if it is a directory, -1 if it is a file of the map larger than the buffer, and 0 otherwise |
| FatAnswers.NoneToEnter | src/fat32.c:130-153 | a directory read answers -1 for a buffer below a cluster and 2 where nothing has the name |
| FatAnswers.ReadDirectoryAnswers | src/fat32.c:143-163 | otherwise it answers 1 if the first of the name is a file, and else 0 and delivers the table of that directory of the map |
| FatAnswers.FirstBoot | src/fat32.c:114-116 | a boot on a disk without the signature leaves an empty well-formed file system, the signature, and every cluster from 3 on as it was |
| FatAnswers.BootSigns | src/fat32.c:114-120 | every boot leaves a signed disk, and a second one changes nothing |
| FatAnswers.StepLeavesWord | src/fat32.c:245 | the word behind the map is left as the first four bytes of the name of a directory just made, zero by a boot, and as it was by anything else |
| FatReads.ReadCodeAfterWrite | src/fat32.c:166-285 | what any read returns after a write: what it returned before, or the new entry's code if that is now the first match |
| FatReads.ReadStaysAfterWrite | src/fat32.c:166-285 | a file that could be read reads back as before if and only if the write did not put a directory of its name in front of it, and otherwise gives 1 |
| FatReads.ReadCodeAfterDelete | src/fat32.c:166-343 | what any read returns after a delete: what it returned before, or what the next entry of that name gives |
| FatReads.ReadStaysAfterDelete | src/fat32.c:166-343 | a file that could be read reads back as before if and only if it is not the one deleted |
| FatReads.ReadStaysAfterRemount | src/fat32.c:114-204 | a file reads back as before after a remount |
| FatReads.StepKeepsRead | src/fat32.c:166-343 | of all requests only these two disturb what a file gives |
| FatReads.RunKeepsRead | src/fat32.c:166-343 | a file reads the same all through a run if and only if no request of it makes a directory in front of the file or deletes it |
| FatReads.OtherFilesStay | src/fat32.c:166-343 | whatever a run does to other entries, a file can still be read and gives the same bytes |
| FatTree.ChainsRunUp | src/fat32.c:267-280 | every chain in use runs strictly upwards through clusters 3 to 511, ends in end-of-file and has one cluster for a directory and ceil(size / 2048) for a file |
| FatTree.ChainsAreDisjoint | src/fat32.c:267-280 | no cluster is on the chains of two entries anywhere in the tree |
| FatTree.NothingLeaks | src/fat32.c:326-340 | the used words are exactly clusters 0 to 2 and those on some entry's chain |
| FatTree.PathClimbs | src/find.c:63-68 | parent links are acyclic and lead from every directory to the root |
| FatTree.PathIsShort | src/find.c:61 | in at most 510 steps, so 512 rows are enough |
| FatTree.PathByHeaders | src/fat32.c:66-88 | entry 0 of every directory is itself and entry 1 its parent, all the way up |
| FatDriver.TargetReadyExactly | src/fat32.c:197-201 | the chain loop of a read or a delete ends without leaving the map if and only if the first match is an entry in use, and then its chain is linked and as long as its size asks |
| FatDriver.TargetIsReady | src/fat32.c:166-343 | in a well-formed state a read or a delete that finds nothing or an entry in use meets what the methods ask |
| FatDriver.WriteIsReady | src/fat32.c:206-285 | in a well-formed state every write meets what the method asks, if what looks like its parent directory is one |
| FatDriver.ReadDirectoryIsReady | src/fat32.c:130-164 | and every directory read |
| FatDriver.HeadersLeadToRoot | src/find.c:63-68 | in every well-formed state the headers on disk lead every directory to the root |
| FatDriver.InitDirectoryEntry | src/fat32.c:24-32 | the field writes turn exactly one slot of a table into the entry |
| FatDriver.Driver.constructor | src/fat32.c:8 | a driver state of zeros over a disk |
| FatDriver.Driver.FindEmptyCluster | src/fat32.c:34-43 | the first empty word, or -1 as an unsigned number |
| FatDriver.Driver.EnoughEmptyCluster | src/fat32.c:56-64 | true exactly when enough of the words 3 to 512 are empty |
| FatDriver.Driver.InitDirectoryTable | src/fat32.c:66-88 | the new table, or zeros when no cluster is free |
| FatDriver.Driver.ReadDirectory | src/fat32.c:130-164 | its code, the directory's table on success, and the buffer unchanged otherwise |
| FatDriver.Driver.SearchForWrite | src/fat32.c:215-229 | one pass finds the duplicate and the first unused entry |
| FatDriver.Driver.PrepareTable | src/fat32.c:245 | the new table is built in `dir_table_buf`, the memory behind the map |
| FatDriver.Driver.PrepareEntry | src/fat32.c:246-247 | its entry goes into the parent's table and its word ends the chain, in memory |
| FatDriver.Driver.MakeFolder | src/fat32.c:245-251 | everything the folder branch changes in memory and on disk |
| FatDriver.Driver.WriteFolder | src/fat32.c:239-252 | the folder branch does what its description says |
| FatDriver.Driver.NextFree | src/fat32.c:272-273 | the unbounded inner scan stops on the next free word |
| FatDriver.Driver.StoreNext | src/fat32.c:270-277 | one round stores a part and links its cluster to the next free one |
| FatDriver.Driver.StoreLast | src/fat32.c:279-280 | the last part ends the file |
| FatDriver.Driver.StoreParts | src/fat32.c:267-280 | the partition loop threads the chain and stores every part of the buffer in it |
| FatDriver.Driver.WriteFile | src/fat32.c:254-282 | the file branch does what its description says |
| FatDriver.Driver.Write | src/fat32.c:206-285 | code and new state of a write; a nonzero code leaves disk and map unchanged |
| FatDriver.Driver.ReadNext | src/fat32.c:198-200 | one round copies a cluster and moves along the chain |
| FatDriver.Driver.ReadChain | src/fat32.c:197-201 | the loop copies exactly the clusters of the chain, in order |
| FatDriver.Driver.Read | src/fat32.c:166-204 | code and buffer of a read; nothing else changes |
| FatDriver.Driver.IsEmptyFolder | src/fat32.c:315-324 | no entry behind the headers is in use |
| FatDriver.Driver.FreeLinks | src/fat32.c:327-333 | the loop wipes and frees every cluster of a chain but the last |
| FatDriver.Driver.FreeLast | src/fat32.c:337-338 | the last cluster is wiped and freed, and with it the whole chain |
| FatDriver.Driver.Remove | src/fat32.c:336-340 | with the last cluster gone the whole chain is given back and the entry cleared |
| FatDriver.Driver.Delete | src/fat32.c:287-343 | code and new state of a delete; a nonzero code leaves disk and map unchanged |
| FatDriver.Driver.CreateFat32 | src/fat32.c:96-112 | the state and the disk of a fresh format |
| FatDriver.Driver.IsEmptyStorage | src/fat32.c:90-94 | true exactly when the boot block is not the signature |
| FatDriver.Driver.Initialize | src/fat32.c:114-120 | a format, or the map read back from cluster 1 |
| FatDriver.Driver.TrackToParent | src/find.c:59-68 | the names from a directory up to the root, one row each, inside the 512 rows |
| FatRun.FormatIsSound | src/fat32.c:96-112 | a format satisfies the invariant whatever the disk held |
| FatRun.FormatIsEmpty | src/fat32.c:96-112 | and holds no files |
| FatRun.FreshDiskHolds | src/fat32.c:206-285 | a fresh disk takes a directory or a file of at most 509 clusters in its root and refuses larger ones; a file without a name passes for one that exists |
| FatRun.RemountOverAdmits | src/fat32.c:56-64 | after a remount of a fresh disk a file of 510 clusters is admitted, one more than there are |
| FatRun.RootDeletesItself | src/fat32.c:295-340 | on a fresh disk deleting `root` in the root succeeds and leaves no well-formed state |
| FatRun.MountIsIdentity | src/fat32.c:114-120 | in every well-formed state mounting never reformats and reads back the cached map |
| FatRun.MountKeepsTree | src/fat32.c:114-120 | so the map of files survives it |
| FatRun.RunIsFine | src/fat32.c:206-343 | every state of every run of writes, deletes and remounts satisfies the invariant |
| FatRun.RunChanges | src/fat32.c:166-343 | a run refines the finite map: the files at its end are those at its start with the successful changes applied in order |
| FatRun.RunIsClean | src/fat32.c:327-340 | runs keep every free cluster zero |
| FatRun.RunLeavesRest | src/fat32.c:206-343 | and never touch a cluster behind the map |
| FatRun.OnlyFileDataIsShutOut | src/fat32.c:206-213 | after any run from a zeroed disk the requests left out are those whose parent is a part of a file that reads as a directory |
| FatRun.UndoAfterAnyRun | src/fat32.c:206-343 | after any run from a zeroed disk, a write and an unshadowed delete of the same entry restore the disk byte for byte |
| FatRun.PlainStepsNeverOverAdmit | src/fat32.c:58-61 | while the word behind the map is not zero nothing is over-admitted, and plain requests keep it so |
| FatRun.FreshRunsNeverOverAdmit | src/fat32.c:58-61 | no write of a plain run from a fresh format is over-admitted |
| FatRun.FormatFillsBuffer | src/fat32.c:107 | a format leaves that word nonzero |
| FatExamples.DirectoryHidesFile | src/fat32.c:174-190 | write `x` and `a`, delete `x`, make directory `a`: reading the file `a` gives 0 before the last request and 1 after it |
| FatExamples.RootShadowsFile | src/fat32.c:174-190 | a file called `root` in the root of a fresh disk is written, cannot be read, and a delete does not undo the write |
| FatExamples.BlankKeyLeavesMap | src/fat32.c:174-201 | a request without a name finds an unused entry of a fresh root and its chain loop leaves the map |
| Paging.CurrentOfUse | src/paging.c:182-195 | a directory's address comes back from CR3 exactly when it lies above the kernel's base |
| Paging.DirectoriesApart | src/paging.c:123 | the directories lie one behind the other, four bytes for each entry |
| Paging.CheckIsExact | src/paging.c:53-57 | the check passes for an amount exactly when the free frames hold it |
| Paging.FirstFitFinds | src/paging.c:77-81 | first fit finds a frame exactly when one is unmarked |
| Paging.CheckMeansFrame | src/paging.c:53-57 | when the check passes there is a frame to give, and it is not frame 0 |
| Paging.AllocateKeepsSound | src/paging.c:60-100 | allocation keeps the counter equal to the unmarked frames and every frame mapped at most once |
| Paging.FreeKeepsSound | src/paging.c:102-121 | so does freeing |
| Paging.AllocateKeepsExactly | src/paging.c:60-100 | an allocation that finds a frame keeps the invariant if and only if its directory is in use and it is not over the kernel's entry |
| Paging.FreeKeepsExactly | src/paging.c:102-121 | freeing keeps it if and only if it is not the kernel's own page |
| Paging.UnusedDirectoryFills | src/paging.c:60-100 | right after boot an allocation in a directory not in use breaks it |
| Paging.KernelPageGoes | src/paging.c:102-121 | and so does freeing the kernel's page of the first directory taken |
| Paging.PageHolds | src/paging.c:39-41 | a page index picks the 4 MiB page an address lies in |
| Paging.AllocateChanges | src/paging.c:76-99 | an allocation takes the lowest free frame and maps it present, writable, for the user and as one 4 MiB page, and changes nothing else or, with none free, nothing at all |
| Paging.FreeChanges | src/paging.c:109-119 | freeing gives back the frame of the entry and clears it, and changes nothing where nothing is mapped |
| Paging.CreateChanges | src/paging.c:143-160 | creation takes the lowest directory not in use and maps the kernel in it, not for the user; no frame is taken |
| Paging.DiscardChanges | src/paging.c:176-177 | giving a directory back clears all its entries; no frame is given back |
| Paging.CreateKeepsSound | src/paging.c:131-161 | so does taking a directory |
| Paging.DiscardKeepsSound | src/paging.c:163-180 | so does giving one back |
| Paging.CreatedMapsOnlyKernel | src/paging.c:149-160 | a new directory was unused and maps the kernel entry and nothing else |
| Paging.AllocateLeaksWhen | src/paging.c:95-97 | an allocation loses no frame if and only if the entry it fills was not present |
| Paging.FreeLeaksNothing | src/paging.c:116-118 | freeing a page loses no frame |
| Paging.DiscardLeaksWhen | src/paging.c:176-177 | giving back a directory loses no frame if and only if it mapped none |
| Paging.RunIsSound | src/paging.c:53-180 | every sequence of the four operations keeps the allocator sound |
| Paging.PageManager.constructor | src/paging.c:25-31 | the initial allocator: frame 0 marked, the rest free |
| Paging.PageManager.Check | src/paging.c:53-57 | enough frames for an amount in bytes |
| Paging.PageManager.AllocateUserPageFrame | src/paging.c:60-100 | result and new state of an allocation anywhere, and exactly when the invariant survives; first fit never leaves the frame map |
| Paging.PageManager.FreeUserPageFrame | src/paging.c:102-121 | result and new state of freeing anywhere, and exactly when the invariant survives |
| Paging.PageManager.CreateNewPageDirectory | src/paging.c:131-161 | the first unused directory, taken and given its kernel entry |
| Paging.PageManager.FreePageDirectory | src/paging.c:163-180 | accepts exactly the addresses of the directory list |
| Processes.Scan | src/scheduler.c:15-23 | where the circular search stops, and that nothing it passed was ready |
| Processes.CeilDiv | src/process.c:151-159 | the least number whose product with b reaches a |
| Processes.FindPid | src/process.c:188-191 | the first slot with a pid |
| ProcessRuns.AdmittedHasSlot | src/process.c:133-139 | when a creation is admitted a NEW slot exists, so the unbounded search stops inside the list |
| ProcessRuns.NewPidIsFree | src/process.c:116-131 | the search for a pid ends with the least positive one nobody has, at most 17 |
| ProcessRuns.SwitchStaysWhen | src/scheduler.c:25-33 | the running process stays exactly when no other is ready |
| ProcessRuns.SwitchPicksFirst | src/scheduler.c:14-38 | otherwise the cyclically first ready slot after it is picked |
| ProcessRuns.SwitchKeepsInv | src/scheduler.c:11-45 | a switch restores the invariant: at most one slot RUNNING, the one at the running index, with its own directory in CR3 |
| ProcessRuns.CreationHasPagesWhen | src/process.c:35-58 | a created process has all its pages if and only if that many frames were free |
| ProcessPids.NeededHolds | src/process.c:35 | the pages asked for are the fewest that hold the program and one page more, unless that wraps around: then it is at most one |
| ProcessPids.CreatedProcess | src/process.c:41-108 | a creation fills the first free slot with a ready process that has the least pid nobody has, at most 16, its name and the addresses of its pages, and leaves every other slot as it was |
| ProcessPids.FailedProcess | src/process.c:54-70 | one whose program cannot be read leaves a free slot with only the pages filled in |
| ProcessPids.RefusedProcess | src/process.c:22-52 | one that is not admitted or finds no directory changes nothing |
| ProcessPids.NewPidKills | src/process.c:105 | killing the new pid clears exactly that slot |
| ProcessPids.KilledIsZeroed | src/process.c:194-197 | and leaves zeros in it |
| ProcessPids.UnknownPid | src/process.c:188-192 | killing a pid nobody has changes nothing |
| ProcessPids.ZeroIsFound | src/process.c:188-197 | killing pid 0 finds a slot whenever one is free |
| ProcessPids.StepKeepsMarks | src/process.c:105 | every step keeps it that a process has a pid unless its slot was cleared while the processor stayed on it, and that at most one has none |
| ProcessPids.RunKeepsMarks | src/process.c:105 | so does every run |
| ProcessRuns.CreationRestoresDirectory | src/process.c:61-80 | creation leaves CR3 as it was on every exit |
| ProcessRuns.StepKeepsInv | src/process.c:21-198 | create, tick, terminate and kill keep the invariant |
| ProcessRuns.RunKeepsInv | src/process.c:21-198 | every state of every run satisfies it: one RUNNING slot, pids distinct, live slots no more than `active_process_count`, at most 16 |
| ProcessRuns.BootKeepsInv | src/process.c:8-12 | so does the machine after boot |
| ProcessRuns.ResumedIsSaved | src/scheduler.c:35-53 | whatever is resumed loads the registers, eip and eflags of the tick that last took it off the processor, or its initial context, with its own directory in CR3 |
| ProcessContexts.TickStores | src/interrupt.c:172-178 | a tick stores each part of what it interrupts in its own field of the slot that was running, with the slot's own directory |
| ProcessContexts.WaitingKeeps | src/scheduler.c:35-53 | the control block of a process that waits stays as it is all through a run |
| ProcessContexts.ResumesWhereItStopped | src/scheduler.c:35-53 | a process interrupted by a tick and put back after any run in which it waits goes on with exactly the registers, eip and eflags of that tick, in its own directory |
| ProcessContexts.CreatedBegins | src/process.c:83-103 | a new process begins at address 0 with interrupts on, its stack four bytes below the end of its first page and the user's data segments |
| ProcessContexts.StartsAtItsBeginning | src/process.c:83-103 | and does so when it first gets the processor, whatever happened before |
| ProcessRuns.WaitingIsUntouched | src/interrupt.c:171-182 | no step touches a waiting process unless it kills it or resumes it |
| ProcessRuns.AddressSpaceIsUntouched | src/process.c:54-58 | no step changes what a live process's directory maps |
| ProcessRuns.AddressSpacesAreDisjoint | src/process.c:45-58 | two live processes never share a frame |
| ProcessRuns.TerminateFreesWhen | src/process.c:161-165 | terminating frees the slot if and only if another process is ready; otherwise the cleared slot is marked RUNNING |
| ProcessRuns.KillClearsExactly | src/process.c:182-198 | killing a live pid clears that slot and no other |
| ProcessRuns.ChoiceMovesCloser | src/scheduler.c:14-38 | a choice takes a ready process or moves strictly closer to it |
| ProcessRuns.BoundedWaiting | src/scheduler.c:11-45 | a ready process that is not killed has run once the scheduler has chosen more often than there are slots before it, whatever else happens |
| ProcessRuns.FifteenChoices | src/scheduler.c:11-45 | so fifteen choices are always enough |
| ProcessRuns.CreationsAreRationed | src/process.c:108 | the count grows with each successful creation and never shrinks: sixteen successes a boot |
| ProcessRuns.DirectoriesAreRationed | src/process.c:40-70 | every creation that gets as far as reading its program uses up a directory for good, read or not: those left are those at the start less these creations |
| ProcessRuns.NoDirectoryNoCreation | src/process.c:40-44 | with no directory left no creation gets as far |
| ProcessRuns.ThirtyTwoDirectories | src/process.c:40-70 | so a boot sees at most 32 such creations, and after them none |
| ProcessRuns.FramesAreRationed | src/process.c:35-70 | frames never come back: those free at the end of a run are those at its start less all its creations asked for, whatever ended and whatever could not be read |
| ProcessRuns.PagesRunOutWhen | src/process.c:35-58 | a process created after a boot has all its pages if and only if it asks for none or the 31 frames are enough for it and for all that was created or failed to load before it |
| ProcessRuns.CreationAnswers | src/process.c:21-70 | after any run from a boot the code of a creation is told by its request and three counts: the processes created, the frames asked for and the directories taken so far |
| ProcessExamples.CreationWithoutPages | src/process.c:35-58 | a boot can reach a state in which a creation succeeds without all its pages |
| ProcessExamples.LastOneLeavesItsSlot | src/process.c:161-165 | and one in which the only process ends and its cleared slot is marked RUNNING |
| ProcessExamples.EndedOneGoesOn | src/scheduler.c:25-53 | and one in which a process that has ended waits without a pid and is resumed by the next tick |
| ProcessManager.Manager.constructor | src/process.c:8-12 | an empty list, nobody running |
| ProcessManager.Manager.UsePageDirectory | src/paging.c:189-195 | CR3 for a directory's address |
| ProcessManager.Manager.GetCurrentPageDirectory | src/paging.c:182-187 | and back, in 32-bit arithmetic |
| ProcessManager.Manager.NextReady | src/scheduler.c:14-23 | the circular search |
| ProcessManager.Manager.SwitchToNextProcess | src/scheduler.c:11-45 | new state of a switch and what it loads |
| ProcessManager.Manager.SaveContext | src/scheduler.c:47-53 | the context goes into the running slot, which becomes READY |
| ProcessManager.Manager.TimerInterrupt | src/interrupt.c:171-182 | a timer tick: save, then switch |
| ProcessManager.Manager.TerminateCurrentProcess | src/process.c:161-165 | the running slot is cleared, then a switch |
| ProcessManager.Manager.KillProcess | src/process.c:182-198 | new state, and 0 or -1 as some slot has the pid or none |
| ProcessManager.Manager.GenerateNewPid | src/process.c:116-131 | the least unused pid; its unbounded loop ends |
| ProcessManager.Manager.GetInactiveIndex | src/process.c:133-139 | the first NEW slot |
| ProcessManager.Manager.AllocatePages | src/process.c:54-59 | the pages of a new process and the addresses recorded for it |
| ProcessManager.Manager.Load | src/process.c:61-108 | the second half of a creation |
| ProcessManager.Manager.CreateUserProcess | src/process.c:21-114 | code and new state of a creation on every exit |
| ShellPaths.RetractUndoesAppend | src/user-shell.c:130-147 | going up undoes going down on the path string, whatever the path, for a name without separators |
| ShellPaths.AppendCurrentPath | src/user-shell.c:130-136 | the whole 512-byte buffer after a name is appended |
| ShellPaths.RetractCurrentPath | src/user-shell.c:138-147 | the whole buffer after the last name is cut off |
| ShellPaths.JoinOfComponents | src/user-shell.c:149-186 | components joined with slashes give the text back, with slashes for backslashes |
| ShellPaths.ComponentsOfJoin | src/user-shell.c:149-186 | parts without separators, joined and cut again, are the same parts |
| ShellPaths.ComponentsOfBoth | src/user-shell.c:149-186 | two paths with a separator between them have the components of both |
| ShellPaths.CountFolders | src/user-shell.c:160-169 | the first loop counts the components modulo 256 |
| ShellPaths.FillNext | src/user-shell.c:173-184 | one character goes into the row being filled, or a separator starts the next one |
| ShellPaths.FillRows | src/user-shell.c:172-185 | the second loop fills one row for each component and leaves the others zero |
| ShellPaths.ParsePath | src/user-shell.c:149-186 | number and rows of a parsed path |
| ShellPaths.ReportedIsCount | src/user-shell.c:160-169 | the two loops agree if and only if there are fewer than 256 components |
| ShellPaths.CountWraps | src/user-shell.c:160-169 | a line that fits its buffer and has 256 components is reported to have none |
| ShellPaths.PrintPath | src/user-shell.c:102-110 | what is shown for the first rows |
| ShellPaths.PrintOfParse | src/user-shell.c:102-186 | parsing and printing shows the path without one leading and one trailing separator |
| ShellWalk.SurveyIsMapped | src/fat32.c:66-88 | every well-formed disk with plain directory names has an atlas |
| ShellWalk.OnlyRootIsSlash | src/cd.c:20 | the path is a single slash exactly at the root |
| ShellWalk.UpNamesParent | src/cd.c:23-25 | cutting the last name off names the parent |
| ShellWalk.FollowStands | src/cd.c:18-51 | no component breaks the agreement between the cluster and the path |
| ShellWalk.StuckWhen | src/cd.c:19-22 | climbing from the root is the one component that repeats for ever |
| ShellWalk.OverflowWhen | src/user-shell.c:130-136 | naming a directory whose path does not fit is the one component that overruns the path buffer |
| ShellWalk.WalkStops | src/cd.c:18 | the first failure decides the whole path |
| ShellWalk.DotsDoNotMatter | src/cd.c:27-50 | single dots make no difference to where a path leads |
| ShellWalk.UnknownName | src/cd.c:69-81 | a name nothing in the directory has in its first eight bytes is error 2 |
| ShellWalk.NameAnswers | src/cd.c:69-88 | otherwise the first entry that has them decides: error 1 for a file, while a directory is entered and the path becomes its path |
| ShellWalk.WalkStands | src/cd.c:5-61 | wherever a path leads, the new current path names exactly that directory |
| ShellWalk.WalkStuckWhen | src/cd.c:18-22 | a path repeats for ever if and only if some part of it leads to the root and the next component is `..` |
| ShellWalk.WalkOverflowsWhen | src/cd.c:18-51 | a path overruns the buffer if and only if some part of it leads to a directory and the next component names one whose path has 512 characters or more |
| ShellWalk.NeverOverflows | src/cd.c:18-51 | so it never does while the depth at its start and its components together are at most 56 |
| ShellWalk.DownAndBack | src/cd.c:18-51 | entering any number of directories by name and going up as often restores the cluster and the path |
| ShellWalk.LabelsAreComponents | src/user-shell.c:149-186 | the components of a current path are the names on the way down, at most half as many as characters |
| ShellWalk.PathIsCounted | src/user-shell.c:160-169 | so a current path that fits its buffer has as many components as levels, and all of them are counted |
| ShellWalk.PathLeadsHome | src/cd.c:96-101 | the current path parsed and followed from the root leads to the current directory if and only if each directory on the way is what a search for its name finds first |
| ShellWalk.PathsDiffer | src/user-shell.c:14-15 | two directories that can be found by name do not go by the same path |
| ShellWalk.PathsDifferExactly | src/user-shell.c:14-15 | no two directories go by the same path if and only if no two in one place have the same name |
| Shell.Session.constructor | src/user-shell.c:222-227 | the shell starts at the root |
| Shell.Session.UpdateDirectoryTable | src/user-shell.c:112-114 | the table of a cluster, into memory |
| Shell.Session.ChangeDirectory | src/cd.c:69-88 | enters a directory and lengthens the path, or changes nothing |
| Shell.Session.StepUp | src/cd.c:23-25 | the parent's table and the shorter path |
| Shell.Session.TakeComponent | src/cd.c:19-49 | one round of the loop |
| Shell.Session.FollowNext | src/cd.c:18-51 | the same, on the way along a whole path |
| Shell.Session.FollowRows | src/cd.c:18-51 | the loop |
| Shell.Session.ChangePath | src/cd.c:5-61 | on success cluster, table and path are those of the directory reached; on an error all three are unchanged |
| Shell.Session.CancelChangePath | src/cd.c:63-67 | cluster and path as saved, and the table that belongs to them |
| Shell.Session.GoToRoot | src/user-shell.c:152-158 | the effect of an absolute path on the session |
| Shell.Session.Cd | src/cd.c:90-102 | cd with one argument; an absolute path that fails leaves the shell at the root |
| Shell.CdToItsPath | src/cd.c:96-102 | cd with the path of a directory goes to that directory, from anywhere, if and only if it is not the root and each directory on the way is what a search for its name finds first |
| Shell.CdToRootIsRefused | src/cd.c:96-102 | cd with a single slash reports an error, after moving to the root |
| Shell.CdToDotStays | src/cd.c:27-50 | cd with a single dot stays where it is |
| Shell.CdInSteps | src/cd.c:90-102 | cd along two paths joined by a slash is cd along the first and then along the second |
| Shell.LongPathStays | src/cd.c:96-102 | cd with a line of 256 components reports success and stays where it is |
| ShellExamples.FileHidesDirectory | src/fat32.c:144-158 | with a file `a.x` in front of it the directory `a` of the root is out of the reach of cd |
| ShellExamples.ExtensionsShareAPath | src/fat32.c:217-233 | directories `a.x` and `a.y` of the root are both called /a |
| ShellDepth.NestIsReached | src/fat32.c:239-252 | requests from a format make directories of eight characters nested as deep as there are clusters |
| ShellDepth.DeepNestOverruns | src/user-shell.c:130-136 | with 57 of them, cd to the path of the 56th succeeds and one cd more overruns the path buffer |
| ShellRun.RunStaysPlain | src/fat32.c:239-252 | runs that create no directory with an empty name or a separator in it keep all directory names plain |
| ShellRun.AtlasAfterAnyRun | src/user-shell.c:222-227 | after any such run from a format the shell can start at the root of a disk with an atlas |
| ShellRun.HeaderNamesKey | src/find.c:59-68 | the name in a directory's header is the one the map of files leads to it by |
| ShellRun.StepKeepsPath | src/fat32.c:206-343 | a directory there before and after a request goes by the same path |
| ShellRun.RunKeepsPath | src/fat32.c:206-343 | a directory there in every state of a run goes by the same path at its end |

## Left out

- ATA port I/O, interrupt and timer set-up, descriptor tables and assembly: hardware plumbing. A
  context switch is the value of the context it is given.
- Messages, the frame buffer, the keyboard and the clock: user interface. `print_path` is modelled as
  the text it shows.
- `mv`: its test for a free slot compares the wrong field, so it always takes slot 2 and keeps none
  of the invariants.
- The search loop of `find`: it overwrites its own pending queue. Only its walk up the parents is
  modelled, without the final printing of the rows.
- `find_empty_dir_entry`, `find_buffer_size` and `process_destroy`: nothing modelled here calls them.
- `string.c` and the splitting of file names: equality and copying of sequences are primitives.
- Loading a program's image between address spaces: only whether the read succeeded, and the initial
  context, are kept.
- Raw cluster writes by user programs, and requests whose parent is file data, a free cluster or a cluster
  behind the map that looks like a directory (`FatRequests.ParentKnown` shuts out these and no others, see
  `FatRequests.ParentKnownWhen`), or lies behind the end of the disk.
- `init_directory_table` copies the parent's name into a string literal; the model uses a fresh
  buffer.
- The rest of `dir_table_buf` and `cluster_buf`: only the first word behind the map is kept.
- `change_path` saves and restores 512 rows where the path has one; the model copies the path.
- The shell's copy of the current table is not refreshed by writes of other programs; the session's
  theorems hold while the disk does not change, and `ShellRun.StepKeepsPath` says what a change keeps.
- mkdir, rm, cp, cat, ls and exec: callers of the routines modelled here.
- FatDriver.Driver.Read: asks that the first match is not an unused entry, because the chain loop leaves
  the map otherwise, and that the buffer hold as many whole clusters as the requested size needs, because
  the code copies whole clusters.
- FatDriver.Driver.Delete: asks that the first match is not an unused entry, for the same reason.
- FatDriver.Driver.Write: asks that a parent that looks like a directory is not a free cluster, which the
  write could claim, nor one behind the map, and that the caller's memory hold whole clusters, because the code reads whole
  clusters from it.
- FatRemoval.DeleteKeepsInv: asks that the first match is not an unused entry, because what the code frees
  is then not on the map.
- FatRemoval.DeleteKeepsExactly: asks the same.
- ShellPaths.AppendCurrentPath: asks that the longer path fits its buffer with its end, because the code
  overruns it otherwise.
- Shell.Session.TakeComponent: asks that the component is not `..` at the root and that the path fits,
  because the code repeats for ever or overruns otherwise.
- Shell.Session.FollowNext: asks that of the whole path.
- Shell.Session.FollowRows: asks that of the whole path.
- Shell.Session.ChangePath: asks that of the whole path.
- Shell.Session.Cd: asks that of the whole path.
- ProcessRuns.AddressSpacesAreDisjoint: says nothing of processes that have ended; their frames stay marked.
