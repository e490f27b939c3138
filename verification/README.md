# Verified model of the OSD extension's system half and of gogen's table and integer passes

This project models, in Dafny, the parts of the repository in which several processes, awaits or
representations have to agree, and proves what they are for.

* **Old working copies** (`OldHomes`, `OldHomePasses`, `ServingLockText`, `SeedId`, `HomeMetadata`).
  Cleaning up old homes by quarantine, snapshot and removal, while windows lock, serve, write and die;
  the text of serving locks; the stream that identifies a tree.
* **The seed archive** (`TarFormat`, `TarArchive`, `TarReader`, `TarRoundTrip`, `TarStreaming`,
  `TarSafety`, over `Numerals`). A tar writer and a streaming reader, in the ustar and pax formats of
  POSIX.1-2017, on the writer's archives and on any bytes.
* **The server's lifecycle** (`LauncherLifecycle`, `LauncherHistory`): one `start` with any `stop` calls
  and child events, from one await to the next.
* **The job worker's lease** (`JobWorkerLease`, `JobWorkerProgram`): a mutual exclusion protocol of
  files and liveness checks, one system call a step.
* **Compiler passes** (`TableMemory`, `TableMove`, `TableMoveRuns`; `IntArith`, `PackedDecimal`,
  `PackedExact`, `Int8Emit`). Handing over the rows of a table instead of copying them; int8 arithmetic
  in place of packed decimals.
* **The unit queue, the Test Explorer and the codecs** (`UnitQueue`, `TestExplorer`, `Xml`, `Literals`,
  `FoldScalars`, `FloatBits`, over `Texts`).

Protocols are state machines: a `Step` datatype, `Enabled`, `Apply`, and runs of any length. Where the
source is an object with fields, a class has one method for each piece of code between two awaits (or
for each call), and its `ensures` says that the object's state moves as `Apply` says. Everything is
checked by `dafny verify dfyconfig.toml`.

## What the proofs found

* *Job worker.* The lease exists so that at most one window holds it and at most one recorded worker
  group is alive. The branch that finds no file (`job-worker.js:47`) breaks that
  (`EnoentRunBreaksExclusion`), and so does another course of events (`StaleReadRunBreaksExclusion`):
  a reclaimer that reads the file before the owner records its worker goes by that old text when the
  owner then dies, and removes a file that names a live worker. In that run every reclaimer finds a
  file, and every worker is recorded in the step after its spawn. `SafeIffHarmless` gives the exact condition.
* *Serving lock.* A child is covered by a lock that outlives its window exactly as long as the home
  path is not replaced between marking the child pending and spawning it (`CoveredIffNeverReplaced`);
  a run from the beginning in which it is replaced is `ReplacedHomeLosesCover`.
* *Launcher.* A `stop` returns in the state "stopped", with one exception
  (`StopReturnsStopped`): when the child's number could not be written to the serving lock
  (`launcher.js:1402-1411`), the child has no exit handler yet, and the start resets the state after
  its own wait. A stop that waits for the same child can return before that, in "starting"
  (`StopMayReturnEarly`).
* *Streaming reader.* It reports a truncated archive for exactly those chunkings in which the chunk
  that completes the first zero block ends strictly inside the second (`RoundTrip`). An archive that is
  cut before its zeros is unpacked in part without complaint if it is cut between two entries, and is
  reported otherwise (`CutIsReported`).
* *Table moves.* Beside what can be the same storage, the pass keeps one kind of copy that it could
  move: between an attribute of an object in a variable and a static attribute (`DistinctIffApart`).
* *int8 emitter.* A `/` over compound operands stays on the packed path because it "may round twice"
  (`emit-int8.ts:51-52`). It does not: with 31 significant digits the retried code would be right there
  too (`RetryIsFaithful`). A `/` below the root has to stay (`InnerQuotientsRoundTooEarly`).

## Model

| member | source | states |
|---|---|---|
| JobWorkerLease.SafeIffHarmless | editors/vscode/job-worker.js:30-70 | a run of any number of windows keeps every live claimant's token and every live recorded worker in the file, at every step, if and only if no removal hits a file with a live claimant or a live worker |
| JobWorkerLease.SafeMeansExclusive | editors/vscode/job-worker.js:30-70 | that file property means at most one live holder and at most one live recorded worker |
| JobWorkerLease.StepKeepsInv | editors/vscode/job-worker.js:30-135 | every system call, crash or death keeps the protocol invariant, provided a removal is harmless |
| JobWorkerLease.HarmfulRemovalIsUnsafe | editors/vscode/job-worker.js:54 | a removal of any other file breaks the guarantee at once |
| JobWorkerLease.NeverOvertakenIsSafe | editors/vscode/job-worker.js:42-56 | runs in which no reclaimer is overtaken (the text it read is still there when the owner is found gone; no file appeared after it found none) are safe throughout |
| JobWorkerLease.EnoentRunBreaksExclusion | editors/vscode/job-worker.js:47-54 | a run through the branch that found no file, with each worker recorded right after its spawn, ends with two windows holding the lease |
| JobWorkerLease.StaleReadRunBreaksExclusion | editors/vscode/job-worker.js:46-54 | a run that never takes that branch, with each worker recorded right after its spawn, ends with two recorded workers alive |
| JobWorkerProgram.JobWorker.AcquireLease | editors/vscode/job-worker.js:30-57 | without interference: takes the lease exactly when there is no file, or no reclaimer and everything the file names is gone; otherwise leaves it; signals a worker group exactly when it reclaims and the worker of a gone owner and guard lives on; always removes its reclaim directory; is a run of the protocol |
| JobWorkerProgram.JobWorker.Reclaim | editors/vscode/job-worker.js:42-56 | under the reclaim directory: ends outside it, with the lease exactly when owner, guard and worker are gone, and with the orphaned worker group signalled exactly when there is one |
| JobWorkerProgram.JobWorker.Judge | editors/vscode/job-worker.js:45-53 | which liveness checks follow what was read; a group is signalled if and only if it is the live worker of an owner and a guard that are gone |
| JobWorkerProgram.JobWorker.RecordLease | editors/vscode/job-worker.js:58-64 | a holder's write is the protocol's step of recording its worker or guard: it keeps the invariant, and the file then names this window's token and that worker; without a lease nothing is written |
| JobWorkerProgram.JobWorker.TakeOver | editors/vscode/job-worker.js:54 | removing the file and creating it anew gives this window the lease, as three steps of the protocol |
| JobWorkerProgram.JobWorker.ReleaseLease | editors/vscode/job-worker.js:65-70 | removes the file only while it carries this window's token; is a run of the protocol |
| JobWorkerProgram.HolderCanServe | editors/vscode/job-worker.js:78-96 | a holder can start a worker and its guard; the file then names both, and both live |
| JobWorkerProgram.HolderCanLeave | editors/vscode/job-worker.js:65-70 | once its worker and guard are gone, a holder can give the lease back, and the file is removed |
| JobWorkerProgram.LateWriteIsLost | editors/vscode/job-worker.js:36-40 | the text of a new lock goes to the file that was created, and shows nowhere when the name leads to another by then |
| OldHomes.CleanupIsSafe | editors/vscode/launcher.js:909-979 | in every run every tree ever published is at the home path, in quarantine, or was removed without a live lock and equal to the seed or to a saved snapshot |
| OldHomes.OnlyFinishRemoves | editors/vscode/launcher.js:909-979 | the only step that removes is the final comparison with its removal, and it removes only what is recoverable and unlocked |
| OldHomes.OnlyWritersChangeContents | editors/vscode/launcher.js:851-979 | cleaning never changes a tree's contents nor gives up a snapshot |
| OldHomes.DeadLocksStayDead | editors/vscode/launcher.js:826-847 | in a tree away from the home path, a lock that names only dead processes is still there, and still dead, after any step |
| OldHomes.NoLiveLockAppears | editors/vscode/launcher.js:812-847 | a tree away from the home path without a live lock has none after any step: locks are taken through the home path |
| OldHomes.StepKeepsInv | editors/vscode/launcher.js:812-979 | what every cleaner, server start and lock file has to agree on holds after every file-system operation and death |
| OldHomes.CoveredIffNeverReplaced | editors/vscode/launcher.js:1386-1443 | at every step of a run, every live child has a lock that is live even without its host, if and only if no child is spawned after the home path was replaced since its pending mark |
| OldHomes.ServedHomeSurvives | editors/vscode/launcher.js:812-979 | under that condition the tree that a live child works in is never removed and has a live lock |
| OldHomePasses.QuarantineIsAccounted | editors/vscode/launcher.js:925-971 | in every run a tree is in quarantine exactly while a cleaner works on it or died at it, or since its pass ended with another tree at its old path; every other tree that was kept is back |
| OldHomePasses.UndisturbedPass | editors/vscode/launcher.js:906-971 | one cleaner that nobody disturbs: a home with a live lock, one that changed, or an edited one that cannot be saved is left as it was; an unedited one is removed; an edited one is saved and removed |
| OldHomePasses.OnlySeedsSkipSaving | editors/vscode/launcher.js:945-946 | saving is left out only for a home with the digest of its seed |
| OldHomePasses.UndisturbedStart | editors/vscode/launcher.js:812-824 | a start that nobody disturbs leaves a lock with its host and its child in the home, and the child runs there |
| OldHomePasses.ServedHomeIsLeft | editors/vscode/launcher.js:1221-1226 | when the child is gone, the lock is taken away and the home is as it was |
| OldHomes.ReplacedIsUncovered | editors/vscode/launcher.js:1386-1411 | a child spawned into a replaced home path is uncovered |
| OldHomes.ReplacedHomeLosesCover | editors/vscode/launcher.js:1386-1411 | a run from the beginning, with the home quarantined and published anew between mark and spawn, in which a live child has no live lock in the tree it works in |
| ServingLockText.LocksReadAsWritten | editors/vscode/launcher.js:812-838 | the three texts that are written read back as host, host and child, and malformed; so does a file that is cut off |
| ServingLockText.LocksKeepTheCopy | editors/vscode/launcher.js:826-847 | a fresh lock keeps the copy exactly while its host lives, a recorded one while host or child lives, a pending or empty one always |
| ServingLockText.AcceptedIffNumerals | editors/vscode/launcher.js:831-837 | a text is accepted, and with which numbers, exactly if it is one or two lines of process numbers in their only spelling, the second possibly 0 |
| SeedId.SameStreamIffAgree | editors/vscode/launcher.js:718-755 | two trees give the same stream to the digest if and only if they agree on kind, permission bits and contents or link target at every path outside the metadata |
| SeedId.EncodeAllInjective | editors/vscode/launcher.js:722-730 | the length-framed records can be told apart from their concatenation |
| SeedId.RecordsAreLookup | editors/vscode/launcher.js:731-752 | the walk records exactly what the tree holds at each path |
| SeedId.SameWalkSameTree | editors/vscode/launcher.js:731-752 | trees that agree at every path are walked in the same order with the same records |
| SeedId.Digest.Visit | editors/vscode/launcher.js:733-752 | the recursive walk feeds the digest the encoded records of the folder, after what it was fed before |
| SeedId.Digest.AddRecord | editors/vscode/launcher.js:722-730 | one record is fed as its frame |
| HomeMetadata.MetadataIff | editors/vscode/launcher.js:706-710 | what is left out at the root of a home: three names, and a serving lock's prefix, process number without leading zeros, lower-case UUID and suffix, and nothing else |
| HomeMetadata.RecordLayout | editors/vscode/launcher.js:718-730 | a record is a letter for its kind, two lengths with the most significant byte first, name, permission bits and content |
| TarFormat.PaxPath | editors/vscode/launcher.js:1657-1665 | the loop ends for every name, and the record's decimal prefix is the record's own length |
| TarFormat.SettlingGoesOn | editors/vscode/launcher.js:1659-1663 | an iteration that has not settled yet grows towards a bound, so the loop cannot run on |
| TarFormat.HeaderReadsBack | editors/vscode/launcher.js:1642-1656 | a header's fields and checksum read back as name, mode, size and type |
| TarFormat.OctalReadsBack | editors/vscode/launcher.js:1637-1641 | an octal field reads back as its number |
| TarFormat.MakeHeader | editors/vscode/launcher.js:1642-1656 | the buffer filled in place is the header, and is refused exactly when a number does not fit its field |
| TarArchive.TarFile.WriteTar | editors/vscode/launcher.js:1668-1699 | what is written is the tree's blocks and two zero blocks; it fails exactly when some size or name does not fit |
| TarArchive.TarFile.WriteNode | editors/vscode/launcher.js:1671-1693 | an entry, its data in blocks, and then its children |
| TarReader.ScanSplits | editors/vscode/launcher.js:1715-1770 | consuming a buffer in two parts is consuming it at once, outside the end of the archive |
| TarReader.Unpacker.Consume | editors/vscode/launcher.js:1715-1770 | the loop over a chunk takes the reader through the scan of it |
| TarReader.Unpacker.Run | editors/vscode/launcher.js:1713-1777 | the loop over chunks, with the check for leftovers at its end |
| TarRoundTrip.PaxReadsBack | editors/vscode/launcher.js:1657-1665 | the reader's pattern takes from a record the name that was put in, unless it holds a newline or is empty |
| TarRoundTrip.SplitJoin | editors/vscode/launcher.js:1706-1712 | splitting a stored path gives back its parts |
| TarRoundTrip.EntryReads | editors/vscode/launcher.js:1671-1770 | the blocks of one entry, short-named or with a pax record, put exactly that entry there, or are refused |
| TarRoundTrip.NodesRead | editors/vscode/launcher.js:1671-1770 | the blocks of a tree put exactly its image there, or are refused at the first name that is not admitted |
| TarStreaming.RoundTrip | editors/vscode/launcher.js:1636-1778 | for every writable tree and every chunking of its archive: the image of the tree if every name is admitted (reported as truncated exactly when a cut falls inside the last block after a zero block), a refusal otherwise |
| TarStreaming.ZeroTail | editors/vscode/launcher.js:1744-1745 | what the trailing zero blocks lead to, by how they are cut |
| TarStreaming.ImageIsLookup | editors/vscode/launcher.js:1755-1769 | the image holds at each path what looking the path up in the tree gives, and nothing else |
| TarStreaming.UnpackRebuildsTheTree | editors/vscode/launcher.js:1668-1778 | unpacking an archive gives the same paths, kinds, permission bits and contents |
| TarSafety.AnyArchiveStaysInside | editors/vscode/launcher.js:1706-1777 | whatever the bytes and their chunks: all that is created lies below the destination, in directories that are there, under names that are not empty, "." or ".." and hold no separator |
| TarSafety.StartIsConfined | editors/vscode/launcher.js:1746-1768 | a header loses nothing that is there, and changes no file |
| TarSafety.ScanIsConfined | editors/vscode/launcher.js:1715-1770 | reading changes no file but by adding to the one being read |
| TarSafety.SafePathIff | editors/vscode/launcher.js:1706-1711 | a name is refused exactly if it is empty, absolute, has a drive or a backslash, or has a part "." or ".." between slashes or ends |
| TarSafety.DamageIsRefused | editors/vscode/launcher.js:1746-1748 | an accepted header with one byte outside its checksum changed is refused |
| TarSafety.NumberIffOctal | editors/vscode/launcher.js:1701-1705 | a number field is read exactly if it holds octal digits, possibly none, with white space around, and as their value |
| TarSafety.PaxIffRecord | editors/vscode/launcher.js:1728-1731 | a name record is accepted exactly in the form of the pattern, and gives that name |
| TarSafety.OnlyKnownKinds | editors/vscode/launcher.js:1749-1769 | only files, directories and name records are accepted |
| TarSafety.OpenCreates | editors/vscode/launcher.js:1756-1766 | an entry's node has its own mode, a directory that was there included; what had to be made above it has the mode that mkdir gives; all else is as it was |
| TarSafety.NameIsJoined | editors/vscode/launcher.js:1752 | without a name record the name is the non-empty ones of prefix and name, with a slash between |
| TarSafety.CutIsReported | editors/vscode/launcher.js:1774 | the first part of any bytes that are read without refusal is unpacked without complaint exactly if it ends between two entries, by the sizes in their headers |
| TarSafety.CutArchiveIsReported | editors/vscode/launcher.js:1668-1774 | so for every archive of a tree, cut anywhere before its final zeros |
| TarSafety.HeaderIsUstar | editors/vscode/launcher.js:1642-1656 | a header has zero owner, group and time, and the magic and version of ustar |
| Numerals.NumeralReadsBack | editors/vscode/launcher.js:1637-1640 | a number's numeral in any base up to ten has its value |
| Numerals.NumeralLength | editors/vscode/launcher.js:1637-1640 | a numeral has at most k digits exactly when the number is below the k-th power |
| LauncherLifecycle.ExitEventIffDiedUnasked | editors/vscode/launcher.js:1431-1447 | in every run an exit event is emitted for a child, once, exactly when it died while running without being asked to |
| LauncherLifecycle.EarlyDeathIsReportedByStart | editors/vscode/launcher.js:1448-1500 | a child that dies before it serves is reported by the outcome of start and by no event |
| LauncherLifecycle.OnlyUnaskedChildrenRun | editors/vscode/launcher.js:1495-1507 | only a live child that was not asked to stop leads to running |
| LauncherLifecycle.StoppedChildNeverRuns | editors/vscode/launcher.js:1148-1152 | a child asked to stop never leads to running later |
| LauncherLifecycle.PhasesMoveAlongEdges | editors/vscode/launcher.js:1221-1238 | the announced states form a path over stopped, building, starting, running and back to stopped |
| LauncherLifecycle.QuietIsStoppedOrRunning | editors/vscode/launcher.js:1250-1520 | with no call left open the state is stopped, or running with a live child, and a port is held only then |
| LauncherLifecycle.StopReturnsStopped | editors/vscode/launcher.js:1582-1612 | whenever a stop returns, the state is stopped and no child is left, if and only if it did not wait for a child that the start is still undoing |
| LauncherLifecycle.StopMayReturnEarly | editors/vscode/launcher.js:1402-1411 | that exception occurs: a run in which a stop returns while the state reads starting |
| LauncherLifecycle.StepKeepsInv | editors/vscode/launcher.js:1250-1612 | start, stops, child and its exit handler agree after every piece |
| LauncherHistory.ExitIffAnsweredAndNeverStopped | editors/vscode/launcher.js:1431-1447 | in every run an exit event is emitted for a child exactly if its life from spawn to exit had a ready answer and no stop ran in it, told by the steps alone |
| LauncherHistory.RunningIffAnswered | editors/vscode/launcher.js:1495-1507 | the state is running exactly while the last child lives and has answered before any stop |
| LauncherHistory.StopMarks | editors/vscode/launcher.js:1594-1608 | a stop that meets a live child marks it as stopped, unless a start that gave up has marked it |
| LauncherHistory.SpawnIffNothingFailed | editors/vscode/launcher.js:1262-1411 | in every run a server is spawned exactly if build and spawn succeed and no stop came while building; a build runs only with the packs read, a port and the lock |
| LauncherHistory.AttemptEndsIff | editors/vscode/launcher.js:1283-1380 | before the spawn, an attempt ends exactly where one of its pieces failed, or a stop had come by the time its port was chosen or its build had ended |
| LauncherHistory.StoppedIsReported | editors/vscode/launcher.js:1587-1596 | a stop that waits for no child reports stopped itself; the end of an abandoned child is not reported twice |
| LauncherLifecycle.Launcher.SpawnServer | editors/vscode/launcher.js:1381-1411 | from the second check to the race: which of lock, spawn and record failed, and what is undone |
| LauncherLifecycle.Launcher.WinRace | editors/vscode/launcher.js:1495-1520 | the piece after the race in which the server answered |
| LauncherLifecycle.Launcher.FailRace | editors/vscode/launcher.js:1474-1494 | the piece after the race failed |
| LauncherLifecycle.Launcher.RunStop | editors/vscode/launcher.js:1586-1612 | what a stop does, by the phase it meets |
| LauncherLifecycle.Launcher.OnExit | editors/vscode/launcher.js:1431-1447 | the exit handler: clears the child, its lock and the state, and reports when it was unasked |
| TableMemory.TransferRefinesIff | tools/gogen/emit-go.mjs:1421-1432 | handing the rows of b over to a, then emptying b, equals copying and clearing, for every path and every reference, with addresses unshared, if and only if no reference is on a row of b |
| TableMemory.WriteRefines | tools/gogen/emit-go.mjs:1486 | while addresses are unshared, a later write in place, by path or through a reference, is the assignment of values |
| TableMemory.PinnedTransferIsObservable | tools/gogen/emit-table-move.ts:43-60 | with a reference on a row of b, a write through it afterwards shows in a, where the copy would have kept the old value |
| TableMove.WalkBodyReaches | tools/gogen/emit-table-move.ts:111-115 | the walk meets every node that occurs in a body, and no other |
| TableMove.KeysAreAncestry | tools/gogen/emit-table-move.ts:19-31 | an expression's keys are those of the storage it is part of, never of an index or a key value |
| TableMove.PathsAreRead | tools/gogen/emit-table-move.ts:97-109 | paths are the components of variables, of own attributes, of attributes of an object in a variable and of static attributes, none by reference |
| TableMove.Analysis.AnalyzeBody | tools/gogen/emit-table-move.ts:44-82 | one body adds the storage it binds and passes on; what was recorded before keeps its origin |
| TableMove.Analysis.Analyze | tools/gogen/emit-table-move.ts:12-82 | each map holds exactly the keys of what some body binds or passes on, each with a body that does; that these are all the references a program can have is ReferenceIsAccounted and FormalIsAccounted |
| TableMoveRuns.DenotedIsReached | tools/gogen/emit-table-move.ts:19-31 | an expression can only lead to storage with one of its keys, to storage already referred to, or to a variable of its own activation that its path starts at |
| TableMoveRuns.BoundIsAccounted | tools/gogen/emit-table-move.ts:45-46 | whatever an operand that the pass takes as bound leads to, in any activation, is recorded, or is found by the search of the body |
| TableMoveRuns.PassedIsAccounted | tools/gogen/emit-table-move.ts:50-63 | whatever an actual or component source that the pass takes as passed on leads to is recorded |
| TableMoveRuns.ReferenceIsAccounted | tools/gogen/emit-table-move.ts:44-82 | whatever a statement of any kind can set a field symbol or reference to (by the language: a data object, a row, a component, an attribute by name, the target of a reference) the pass has recorded |
| TableMoveRuns.FormalIsAccounted | tools/gogen/emit-table-move.ts:50-63 | whatever storage a callee can reach by a formal (every actual not imported by value, and the receiving target) the pass has recorded |
| TableMoveRuns.TaintedIffOperand | tools/gogen/emit-table-move.ts:117-130 | storage is recorded as bound exactly if some statement that sets a field symbol or a reference has it in the ancestry of an operand |
| TableMoveRuns.EscapedIffPassedOn | tools/gogen/emit-table-move.ts:47-80 | storage is recorded as passed on exactly if some call or component assignment has it in the ancestry of what it passes, or some statement finds it by name |
| TableMoveRuns.OverlapIffCoincide | tools/gogen/emit-table-move.ts:117-118 | two paths overlap exactly if in some activation they can be the same storage |
| TableMoveRuns.DistinctIffApart | tools/gogen/emit-table-move.ts:160-169 | roots are told apart exactly if no activation that just completed the statement before lets them meet, objects against static attributes excepted |
| TableMoveRuns.MovedIff | tools/gogen/emit-table-move.ts:83-171 | the answer is moved if and only if: a standard table without stable rows is assigned to one of its type, path to path, and the next statement clears that path; the roots cannot meet; no loop around and no binding in the body can be over the source; none of its keys is recorded |
| TableMoveRuns.MovedIsCleared | tools/gogen/emit-table-move.ts:83-88 | the second statement of a moved pair clears the very place that the first one assigned, and the assignment converts nothing |
| TableMoveRuns.PairIsTransfer | tools/gogen/emit-go.mjs:1421-1432 | so the two statements, by the meaning of each, are a copy of the source and its clearing, and as emitted the handing over of its rows |
| TableMoveRuns.DynamicBindingsKeepCopies | tools/gogen/emit-table-move.ts:120-121 | a body with a dereferencing or component assignment keeps every copy |
| TableMoveRuns.MovedIsUnaccounted | tools/gogen/emit-table-move.ts:142-171 | when the answer is "moved", no storage that a reference can exist to is the source's, in any activation |
| TableMoveRuns.DistinctRootsAreApart | tools/gogen/emit-table-move.ts:160-169 | when the answer is "moved", source and target are different storage in every reachable store, through object references too |
| TableMoveRuns.StepRefines | tools/gogen/emit-table-move.ts:83-93 | every step keeps memory and values the same, a pair that is moved included, whose second statement clears what it names; what a step can refer to is given by the language, statement by statement, and not by the pass |
| TableMoveRuns.MovingRunsAreCopyingRuns | tools/gogen/emit-table-move.ts:12-171 | whole programs: a run that hands rows over wherever the analysis allows it has, at every path and through every reference, the values of the run that copies; and all its references lead to storage that was recorded |
| IntArith.AddIsExact | tools/gogen/go/intarith/arithmetic.go:11-17 | the sign test on the wrapped sum finds exactly the sums out of range |
| IntArith.SubIsExact | tools/gogen/go/intarith/arithmetic.go:18-24 | the same for differences |
| IntArith.MulIsExact | tools/gogen/go/intarith/arithmetic.go:25-45 | the 128-bit product of the magnitudes gives the exact product, or overflow |
| IntArith.DivIsExact | tools/gogen/go/intarith/arithmetic.go:46-79 | the quotient rounded half away from zero, without overflow in between; for a zero divisor 0 or the zero-divide failure |
| IntArith.QuotIsExact | tools/gogen/go/intarith/arithmetic.go:81-94 | the Euclidean quotient for every sign, or overflow; for a zero divisor 0 or the zero-divide failure |
| IntArith.ModIsExact | tools/gogen/go/intarith/arithmetic.go:95-104 | the Euclidean remainder for every sign; for a zero divisor 0 or the zero-divide failure |
| PackedDecimal.SumsAreWhole | tools/gogen/go/abap/packed.go:145-174 | on int8 operands packed sums, differences and products are the exact integers |
| PackedDecimal.WholeQuotients | tools/gogen/go/abap/packed.go:221-245 | packed DIV and MOD are the Euclidean ones, with the same zero divisors |
| PackedDecimal.DivisionRoundsOnce | tools/gogen/go/abap/packed.go:181-219 | rounding a quotient to 31 significant digits and then to an integer rounds as once, for int8 operands |
| PackedDecimal.TrimKeepsRounding | tools/gogen/go/abap/packed.go:68-115 | dropping zeros of the fraction does not change what a value rounds to |
| PackedExact.CalcIs | tools/gogen/go/abap/packed.go:131-151 | a result is kept exactly if it is below 10^63 in magnitude, and overflows otherwise |
| PackedExact.SumsAreExact | tools/gogen/go/abap/packed.go:152-169 | sums and differences of all decimals are the exact ones |
| PackedExact.ProductsAreExact | tools/gogen/go/abap/packed.go:171-174 | products of all decimals are the exact ones |
| PackedExact.DivModAreEuclidean | tools/gogen/go/abap/packed.go:221-245 | DIV and MOD of all decimals are the Euclidean quotient and rest of their values, with their zero divisors |
| PackedExact.QuotientsHave31Digits | tools/gogen/go/abap/packed.go:182-219 | a quotient is the nearest decimal of 31 significant digits, half away from zero |
| PackedExact.ComparesValues | tools/gogen/go/abap/packed.go:247-250 | a comparison of decimals is that of their values |
| PackedExact.ToI8Rounds | tools/gogen/go/abap/packed.go:342-351 | into an int8 a decimal is rounded half away from zero, or is too large, with the failure of calculations or of moves |
| Int8Emit.EmittedCodeIsFaithful | tools/gogen/emit-int8.ts:31-54 | for every conversion, environment and state, the emitted code has the result of the packed calculation put into an int8: the same integer or the same class of failure, and the same state |
| Int8Emit.RetryIsFaithful | tools/gogen/go/intarith/arithmetic.go:106-120 | retrying in packed after an overflow is right for every tree the walk accepts, with / over compound operands too |
| Int8Emit.SingleOperatorIsFaithful | tools/gogen/emit-int8.ts:48-50 | one operator needs no retry: it overflows exactly when the fit does |
| Int8Emit.WalkAgrees | tools/gogen/emit-int8.ts:37-45 | int8 code that does not overflow has the packed result, and fails as it does |
| Int8Emit.PureKeepsState | tools/gogen/emit-int8.ts:16-24 | evaluating a pure operand changes nothing, so evaluating it again is harmless |
| Int8Emit.LiteralIsWhole | tools/gogen/emit-int8.ts:12-15 | a literal the pass recognizes is that integer in packed arithmetic |
| Int8Emit.InnerQuotientsRoundTooEarly | tools/gogen/emit-int8.ts:41 | an int8 / below the root would change 1 / 2 * 2 from 1 to 2; the pass refuses it |
| Int8Emit.Emitter.Walk | tools/gogen/emit-int8.ts:36-45 | the walk gives the code of an integral tree and counts its operators |
| Int8Emit.EmitPackedInt8 | tools/gogen/emit-int8.ts:31-54 | which conversions are emitted, and with which code |
| Int8Emit.EmittedIff | tools/gogen/emit-int8.ts:25-54 | int8 code is emitted exactly for conversions of a leaf, and of integral calculations other than a `/` over compound operands |
| Int8Emit.RetriesIffCompound | tools/gogen/emit-int8.ts:47-53 | what is emitted retries in packed exactly if it has more than one operator |
| Int8Emit.PureIff | tools/gogen/emit-int8.ts:16-24 | pure is what consists of plain variables, attributes, integers, components and conversions only |
| Int8Emit.ComparisonIsFaithful | tools/gogen/emit-int8.ts:55-59 | a comparison emitted on int8 operands decides as the packed one, and fails as it does |
| UnitQueue.AnyRunKeepsTheOrder | editors/vscode/lib.js:379-393 | in every interleaving: at most max(1, poolSize) harmless units at once; another unit alone, after all started harmless ones ended; units start as a prefix of the longest-first order |
| UnitQueue.PoolStaysFull | editors/vscode/lib.js:379-388 | while harmless units wait, uncancelled, as many of them run as the pool allows |
| UnitQueue.FinishedMeansEachOnce | editors/vscode/lib.js:379-393 | a queue that ends uncancelled has started every unit exactly once |
| UnitQueue.NothingStartsAfterCancel | editors/vscode/lib.js:383-391 | no unit starts once it is cancelled |
| UnitQueue.EveryRunEnds | editors/vscode/lib.js:379-393 | runs are bounded in length, and one that cannot go on has finished |
| UnitQueue.SortIsStable | editors/vscode/lib.js:368-374 | the sorted queue is the ranks in turn, each in the order asked |
| UnitQueue.LongThenMediumThenRest | editors/vscode/lib.js:351-374 | each queue holds its long units, then its medium ones, then all others, each in the order asked |
| UnitQueue.ScheduleKeepsUnits | editors/vscode/lib.js:368-374 | the two queues are the units asked for, harmless and not |
| UnitQueue.DurationIsLongest | editors/vscode/lib.js:361-364 | a unit's duration is the longest its classes declare, short when none does |
| UnitQueue.DurationIs | editors/vscode/lib.js:360-364 | a unit is long if one of its classes says so, else medium if one says so, else short |
| UnitQueue.QueueIsByClasses | editors/vscode/lib.js:353-358 | a unit is queued as harmless exactly when it runs some class and every class it runs is scheduled harmless |
| UnitQueue.SharedTimeIsHarmless | editors/vscode/lib.js:353-393 | at any moment of any run, what the workers run has harmless classes only |
| UnitQueue.Queue.WorkerTurn | editors/vscode/lib.js:382-387 | a worker takes the next unit of the shared index, or ends |
| UnitQueue.Queue.NextSerial | editors/vscode/lib.js:389-392 | the next unit of the serial queue, unless cancelled |
| TestExplorer.AlwaysAccurate | editors/vscode/extension.js:4166-4217 | at every await the counter of an object is the number of runs that hold it, have begun and not ended; only held objects have a discovery put off, and each once |
| TestExplorer.ReplacesOnlyFree | editors/vscode/extension.js:4201-4205 | a discovery never replaces the children of an object that a run holds |
| TestExplorer.DeferredIsReissued | editors/vscode/extension.js:4415-4432 | a discovery put off stays so until the last run that holds the object ends, and is then asked exactly once more if the object is still in the tree |
| TestExplorer.AskedIs | editors/vscode/extension.js:4168-4175 | nothing else is asked but a known object that no run holds, when it is to be discovered |
| TestExplorer.Explorer.EndRun | editors/vscode/extension.js:4415-4432 | the end of a run gives up its holds and asks again for what became free |
| TestExplorer.Explorer.StartDiscovery | editors/vscode/extension.js:4168-4175 | a discovery of a held object is put off instead of asked |
| TestExplorer.Explorer.Answered | editors/vscode/extension.js:4201-4205 | an answer for an object held meanwhile is put off instead of published |
| TestExplorer.Explorer.HoldObject | editors/vscode/extension.js:4341-4346 | a run counts once for an object, however many selections it runs on it |
| Xml.EscapeReadsBack | editors/vscode/lib.js:982-992 | unescaping what was escaped gives the text back, for every text |
| Xml.EscapedIsSafe | editors/vscode/lib.js:982-986 | escaped text has none of <, > and the two quotes |
| Xml.EscapeIsSpelling | editors/vscode/lib.js:982-986 | five replacements in turn replace each unit on its own |
| Xml.EntitiesAre | editors/vscode/lib.js:982-992 | the five entities are those of section 4.6 of XML 1.0 |
| Literals.AcceptedIffJoin | tools/gogen/frontend-literals.ts:24-38 | a text is read with a value exactly when it is a join of literals of one kind with that concatenation |
| Literals.JoinReadsBack | tools/gogen/frontend-literals.ts:24-38 | strings quoted by doubling and joined with any white space read back as their concatenation |
| Literals.TokensAgreeWithText | tools/gogen/frontend-literals.ts:14-20 | the literal taken from the tokens of a join is the one read from its text |
| Literals.JoinedIffWrapped | tools/gogen/frontend-literals.ts:14-19 | the tokens of a join are refused exactly if some is not between two quotes of one kind |
| Literals.SingleAgreesWithText | tools/gogen/frontend-literals.ts:14-20 | one literal on its own is read as its text is, and what does not begin with a quote is refused |
| Literals.LiteralText | tools/gogen/frontend-literals.ts:24-38 | the scan always advances and ends with what reading the text means |
| FoldScalars.ParseI | tools/gogen/fold-scalars.ts:61-83 | with its fast path, reads every text as the general path does |
| FoldScalars.NumbersRead | tools/gogen/fold-scalars.ts:69-82 | every number text reads as the decimal rounded half away from zero, too large exactly outside int32 |
| FoldScalars.AcceptedIffNumber | tools/gogen/fold-scalars.ts:69-73 | a text is refused as no number exactly when it is neither blank nor written as one |
| FoldScalars.NumSign | tools/gogen/fold-scalars.ts:35-41 | at most one sign, in front or behind |
| FoldScalars.IToNKeepsLastDigits | tools/gogen/fold-scalars.ts:85-89 | exactly k digits, of the magnitude modulo the k-th power of ten |
| FoldScalars.IToNReadsBack | tools/gogen/fold-scalars.ts:85-89 | their text reads back as that number, or is too large |
| FoldScalars.CToNKeepsIToN | tools/gogen/fold-scalars.ts:85-90 | moving such digits on into as many places keeps them |
| FoldScalars.CToNKeepsLastDigits | tools/gogen/fold-scalars.ts:89-90 | exactly k digits, the last ones of those in the text |
| FoldScalars.OthersAreDropped | tools/gogen/fold-scalars.ts:90 | a character that is no digit does not count, wherever it stands |
| FoldScalars.CFitKeeps | tools/gogen/fold-scalars.ts:23-27 | only blanks and what does not fit are lost, no blank stays at the end, and a second fit loses nothing |
| FloatBits.Fields | editors/vscode/abap-debug-view.js:78-94 | the biased exponent and fraction of every double, for an estimate that is right or one too large |
| FloatBits.Bits | editors/vscode/abap-debug-view.js:78-94 | the bits mean the double they were made of, in the format of section 3.4 of IEEE 754-2019; a NaN gives the canonical one |
| FloatBits.Spell | editors/vscode/abap-debug-view.js:95-101 | the sixteen digits, low byte first, stand for those bits |
| FloatBits.CharactersReadBack | editors/vscode/abap-debug-view.js:102-117 | text cast to hexadecimal digits and back is what it was |
| FloatBits.DigitsAreLittleEndian | editors/vscode/abap-debug-view.js:102-110 | each character is four digits, its low byte first |
| FloatBits.HexTextIsLittleEndian | editors/vscode/abap-debug-view.js:112-117 | any digits are read so, in fours, and what is left over is dropped |
| FloatBits.TextToHex | editors/vscode/abap-debug-view.js:102-110 | the digits of the first 65 characters |
| FloatBits.HexToText | editors/vscode/abap-debug-view.js:112-117 | the characters of the first 1028 digits |

## Left out

* File names, texts and archives are bytes or UTF-16 code units; decoding UTF-8, and Unicode beyond
  the white space of regular expressions, is not part of the model.
* Operating system refusals: permission checks, umask, descriptors left open, partial writes, and a
  recursive removal that stops halfway. The final comparison of a home and its removal are one step,
  as are each single read, write, rename and liveness check.
* SHA-256 and Brotli: the digest is taken as injective, and the archive is read uncompressed.
* Links and other special entries among the three metadata names of a home.
* The process that builds is not recorded in a serving lock, and neither are descendants of a worker
  group; both are outside the guarantees.
* Overlapping `start` calls, and a `start` while a `stop` is pending: the code relies on callers not
  to, because it yields before it sets its state. A `start` that throws before it has chosen a port
  leaves the state at building; such throws are not part of the model.
* Kills are taken to succeed, and process numbers not to be reused by a window.
* Pieces that wait for the same exit of a child run in any order, the start's own termination of it among them.
- TableMoveRuns.MovingRunsAreCopyingRuns: statements run in any order within their activation, so it
  covers more runs than the program has. It takes from the front end that by-reference parameters carry
  the reference mark, that names and owners of static attributes are resolved, that a class and method
  name identify a body, and that a path to a table starts at a variable of a plain type. What a copy
  between different types or of a keyed table holds is left open. Variables declared with STATICS, rows that an append moves to a larger buffer, and events (which copy their arguments) are not modelled.
- TableMove.Analysis.Analyze: the operand texts of statements that were not compiled are given as the
  names they contain; taking those names from the text by pattern is not modelled, and such a statement
  is taken to bind attributes of those names. Origins are bodies, without the kind of statement. The
  three fields an argument can have its actual in are one field.
* Loops over a table read its header anew in each turn, so an iteration holds no address of its own
  unless it binds a field symbol.
- Int8Emit.EmittedCodeIsFaithful: failures agree in class; the name of the operator in the message can
  differ. Rendering an operand is taken to mean evaluating it, and a row expression of a table conversion is evaluated once.
* Packed values are pairs of digits and scale; that their decimal text parses to the same pair is not modelled.
* A pool size that is not a number starts no worker for harmless units, unlike zero or a negative one;
  pool sizes are integers here. A cancellation is not taken back.
* Test runs are taken not to throw, as the queue requires, so that no selection starts after its run has ended.
* `ParseF`, `S2D` and `S2T` of the folded scalars, and the classification of debug values: floating-point
  parsing or plain expressions.
* Logarithms are an estimate that is right or one too large; other arithmetic on doubles in the encoder
  is exact and stated on reals.
* HTTP clients, the VS Code user interface, UI5 components, and the passes whose meaning lives in
  runtime files elsewhere.
