# util-vserver: verified core

This project models the algorithmic cores of util-vserver in Dafny and proves
what they promise, over every input and every run. A system call takes a flag
that makes it fail, so a theorem over all flags is a theorem over all patterns
of failure; where failures do harm, the theorem says exactly which.

| modules | what they model |
|---|---|
| `FileSystem`, `Unify`, `SparseCopy`, `UnifyCopy` | names and inodes; replacing a file by a hard link with backup and rollback; the sparse copy |
| `HashName`, `HashStore`, `Hashify`, `HashVisits`, `HashCalm`, `HashRuns`, `HashDirs` | vhashify: the names of the content-addressed store and what it relies on, the collision search and the link, visits, runs in which nothing fails, whole runs, the table of stores |
| `PathNames`, `MakeDirs`, `PathInfo` | paths as names, making the directories above a path, joining paths |
| `Resolver`, `ResolverRuns`, `ResolverEnds` | rpm-fake.so and rpm-fake-resolver as two processes over two byte streams and a token pipe: what all runs keep, where runs can lead, and that they end |
| `LinkedItems`, `InodeTable`, `DiskUsage` | linked items on the heap; vdu: the 103-bucket hash set and the recursive count |
| `SelfOrg`, `SelfOrgList`, `Vector`, `XidCache`, `XidRuns` | the self-organising list and vector, sorted insertion, lsxid's cache and sequences of its lookups |
| `MountOptions`, `FstabLine` | secure-mount: the option table, option lists, one line of an fstab |
| `FsTool`, `FsToolVisits` | the two-pass walk of lsxid, chxid, setattr and showattr: what it counts, what it visits |
| `Format`, `Tai64n`, `Optional`, `Sets` | numerals, TAI64N labels, values that may be missing, sizes of sets |

Code that changes things in place is a class or a method on arrays, proved
against a function of the old state; the laws are lemmas about those functions.
`dafny verify dfyconfig.toml` checks everything.

## Main results

- **vhashify keeps what every path reads.** `HashRuns.HashifyRun`: over any
  sequence of visits, each path outside the store reads the same content, mode, owner
  and size (and time, unless ignored), but for names that a visit took away, which are
  gone unless a temporary file came to have that name; no store name changes; a fatal exit
  keeps its file under the temporary name;
  and files that are said to be unified and have equal key and content end up as one
  inode. A fatal exit takes a restoring rename that fails in that very visit. A name is
  taken away by a fatal exit, or by a failed link whose failures do not
  spare it (`Hashify.LinkGuest` says when, both ways). The one kind of failure that is
  ruled out leaves a cut copy of the very file that is visited in the store where it can
  be taken for it (`HashStore.CopySoundUnlessPoisonous` says when, both ways, and
  `HashVisits.PoisonedRun` shows the file being replaced).
- **vhashify unifies all that it can.** In a run in which nothing fails, any two visited files
  that at the start are regular, of 16 bytes at least, not unified already by their looks, and
  equal in content, mode, owner (and time, unless ignored) are one inode in the end
  (`HashRuns.HashifyRun`, `HashCalm.CalmEnd`). Every answer of a visit has its exact condition
  (`HashVisits.VisitEntry`).
- **Unify_unify is all-or-nothing** (`Unify.AllOrNothing`): when it succeeds, when its exit is
  fatal, and what all names and inodes are then, in terms of the two names and the failing calls
  alone (`Unify.CallRight`); with the exact condition `Drops` under which a failed call loses the
  old file.
- **Resolver replies never cross** and **tokens are conserved** in every
  interleaving, however reads split (`Resolver.RepliesNeverCross`,
  `Resolver.TokensConserved`); there is no deadlock, and every run in which both
  processes keep getting turns ends after a bounded number of rounds, with the client
  gone, the server exited and the caller of every lookup in possession of the name service's
  answer (`ResolverEnds.EveryRunEnds`);
  both streams stay on frame boundaries in all interleavings if and only if all names
  are short (`ResolverRuns.FramingKeptIff`).
- **vdu looks at the entries** that a chain of directories on the root's device leads to, once for
  each such chain, **and counts each inode once** if link counts are honest and no two inodes with
  several links share a number; given either, the other is also necessary
  (`DiskUsage.DiskUsageOf`). The count runs on a hash set with a linked heap.
- **mkdirRecursive is exact** (`MakeDirs.MkdirRecursive`): when it succeeds, what
  then exists, what it may have added, and, unless calls fail for reasons of their
  own, a condition on the tree that decides it.
- **Self-organising searches observe nothing** (`SelfOrg.SearchesObserveNothing`),
  **the xid cache is transparent** for all sequences of lookups from a set of ids if and
  only if they lie in one window of 2^31 ids that may go round, or are at most two, or
  three of which no two are exactly 2^31 apart (`XidRuns.TransparentIff`),
  **the last option that masks a bit decides it** (`MountOptions.LastWriterWins`),
  **the walk visits exactly what is visible, once and in order** (`FsToolVisits.VisitsTheVisible`,
  `FsToolVisits.WalkInOrder`) **and returns the number of calls that failed** (`FsTool.ProcessFile`), **labels read
  back and sort** (`Tai64n.LabelReads`, `Tai64n.LabelsSort`), **joining paths is
  associative** (`PathInfo.JoinIsAssociative`).

## Where the code does less than one would expect

Each of these is stated as the code behaves, with an input at which it shows.

- Unify_unify loses `dst` if lstat fails on a file that exists: link then reports
  EEXIST, and the clean-up unlinks `dst` (`Unify.AFailedStatLosesTheFile`,
  `Unify.OnlyAFailedStatDrops`).
- A copy that was cut short and could not be unlinked is accepted as a reference
  exactly for a file that has mode 0200 and the program's own user and group, and
  the next visit replaces the file by it (`HashStore.CutCopyIsTaken`,
  `HashVisits.PoisonedRun`).
- A lookup of a name of 0x1000 bytes or more can end with a reply that no name
  service gives, made of five '?' (`ResolverRuns.LongNameGetsWrongReply`).
- vdu looks at inode numbers without their device, so that a mount point whose root
  directory has the number of another directory is not counted
  (`DiskUsage.MountPointIsMissed`, `DiskUsage.NoneMissedIff`).
- cmpMap orders ids as numbers only less than 2^31 apart
  (`XidCache.CmpMapOrdersIff`); two ids that are 2^31 apart with any third one, or four
  that lie in no window of 2^31, make the cache miss an id that it holds
  (`XidRuns.AskedTwice`, `XidRuns.OppositesMiss`, `XidRuns.CircleMisses`).
- HashDirInfo_compareDevice compares 32 bits only: a second device that differs in
  higher bits is refused, and taken for the first (`HashDirs.FoundRightIff`,
  `HashDirs.AliasIsRefused`).
- Of the names in the option table "user" alone does not mean itself, but "users";
  an empty item means "defaults" (`MountOptions.NamesMeanThemselves`,
  `MountOptions.PrefixSurprises`). The buffer for unknown items is one byte too
  small exactly if no item is known and no comma ends the list
  (`MountOptions.BufferFitsIff`).
- mkdirRecursive fails for a single name below the root, and takes a file in the
  place of the deepest directory for that directory (`MakeDirs.MkdirRecursive`).
- The parser of an fstab line steps over the terminator when the data field ends the
  line, and reads on; it leaves mountFstab's buffer exactly on a last line without a
  newline, if it gets there, whose data field runs up to the end (`FstabLine.InsideIff`,
  `FstabLine.FileStaysInsideIff`, `FstabLine.LastFieldRunsOut`).
- The seconds of a TAI64N label do not "always" have 16 digits: they do not
  exactly for -2^62 <= tv_sec < -3 * 2^60 (`Tai64n.AssertionHolds`).

## Model

| member | source | states |
|---|---|---|
| `FileSystem.Disk.Unlink` | lib_internal/unify-unify.c:114 | unlink(2) succeeds exactly on an existing name without a fault and removes that name only |
| `FileSystem.Disk.Link` | lib_internal/unify-unify.c:96 | link(2) needs an existing source and a free target; the target then names the source's inode |
| `FileSystem.Disk.Rename` | lib_internal/unify-unify.c:85 | rename(2) moves a name over another, and does nothing if both are one inode |
| `FileSystem.Disk.Lock` | lib_internal/unify-unify.c:48-51 | the flags are set on the inode behind an existing name; nothing else changes |
| `FileSystem.Disk.Create` | src/vhashify.c:443 | O_CREAT with O_EXCL succeeds exactly on a free name and makes a new inode |
| `FileSystem.Disk.Store` | lib_internal/unify-copy.c:215-216 | one inode is changed in place, or nothing |
| `Unify.SetAside` | lib_internal/unify-unify.c:56-93 | when a backup is made, what it leaves if mkstemp or rename fails, and when an empty target is unlinked instead |
| `Unify.LinkOrRestore` | lib_internal/unify-unify.c:95-108 | the link exists, or the backup is back under its old name, or the exit is fatal and the backup stays |
| `Unify.ReplaceTarget` | lib_internal/unify-unify.c:56-120 | outcome and all names afterwards, as a function of the situation and the faults, which UnifyFiles and AllOrNothing put in plain terms |
| `Unify.UnifyFiles` | lib_internal/unify-unify.c:34-121 | the whole call: when it succeeds, when the exit is fatal (only if the restoring rename fails), what the two names and the temporary name denote then, that no other name and no inode but the flags of `src` changes; and the complete new state, as that of the step-free definition |
| `Unify.InPlainTerms` | lib_internal/unify-unify.c:47-121 | the step-free definition says what the names, the inodes and the failing calls alone say: success and fatal exit both ways, every name, every inode |
| `Unify.KeepsNames` | lib_internal/unify-unify.c:65-120 | no third name changes; what the target and the temporary name denote in each outcome |
| `Unify.KeepsInodes` | lib_internal/unify-unify.c:47-93 | no inode disappears or changes in anything but its flags; on success the source is locked |
| `Unify.AllOrNothing` | lib_internal/unify-unify.c:47-121 | on success `dst` is `src`'s inode; on failure it is its own inode exactly unless `Drops`; a fatal exit takes a restoring rename that fails; the temporary name stays only if its unlink fails; no third name changes |
| `Unify.OnlyAFailedStatDrops` | lib_internal/unify-unify.c:56-106 | without ignore_zero an existing target is lost if and only if its lstat failed, the steps before the link worked and the clean-up unlink works |
| `Unify.AFailedStatLosesTheFile` | lib_internal/unify-unify.c:96-105 | a concrete state and fault for which a failed call leaves the target without a name |
| `SparseCopy.OverlayIsCopy` | lib_internal/unify-copy.c:82-111 | the copy equals the source if and only if every skipped byte was zero before, so always on a sparse output |
| `SparseCopy.HolesStay` | lib_internal/unify-copy.c:94-110 | aligned words of zeroes and single zeroes behind them are not written |
| `SparseCopy.CopyMem` | lib_internal/unify-copy.c:82-111 | word loop and byte loop write exactly the bytes that are not skipped, in their block only |
| `SparseCopy.CopyWords` | lib_internal/unify-copy.c:94-98 | after the word loop the whole words are done and the rest is untouched |
| `SparseCopy.CopyMMap` | lib_internal/unify-copy.c:113-160 | success exactly if every block can be mapped, and then output equals input; otherwise the blocks so far, and zeroes |
| `SparseCopy.CopyBlock` | lib_internal/unify-copy.c:131-150 | one block extends the part of the output that agrees with the input by its size |
| `UnifyCopy.CopiedInode` | lib_internal/unify-copy.c:162-239 | a complete copy is the source, unlocked; an incomplete one belongs to the creator with mode 0200 |
| `UnifyCopy.CopyContent` | lib_internal/unify-copy.c:113-160 | the content that is there when copying stops |
| `UnifyCopy.CopyRegular` | lib_internal/unify-copy.c:162-239 | success if and only if none of the calls fails and all blocks map; then the new inode is the source, unlocked; result and complete new state of Unify_copy on a regular file for every pattern of failures |
| `HashName.PathLength` | src/vhashify.c:263-270 | the length of the path after n bytes: two digits each and a slash in front of bytes 1 and 2 |
| `HashName.ConvertDigest` | src/vhashify.c:250-274 | the buffer holds the digest's path, in which every one of the first 47 bytes reads back from its place, and its terminator, and nothing beyond the limit is written |
| `HashName.HexByteReads` | src/vhashify.c:263-270 | the two digits of a byte stand for it |
| `HashName.PathReads` | src/vhashify.c:263-270 | each byte is in its place as two digits, with a slash before the second and the third |
| `HashName.PathTellsApart` | src/vhashify.c:263-270 | two digests share the path of their first n bytes if and only if they share those bytes |
| `HashName.DigestPathInjective` | src/vhashify.c:92-94 | the bound of the buffer: the path is injective on digests of one size if and only if that size is at most 47 bytes |
| `HashName.AcceptedIsWhole` | src/vhashify-init.hc:136-139 | no digest that the program accepts is cut: within HASH_MAXBITS all bytes are in the path, which tells digests apart |
| `HashName.CounterReads` | src/vhashify.c:408-414 | the counter is a dash and eight digits that stand for the index |
| `HashName.CounterInjective` | src/vhashify.c:408-414 | the zero-padded hex counter tells all indices apart |
| `HashName.WriteCounter` | src/vhashify.c:408-414 | dash, eight padded digits and terminator are written, and nothing else |
| `HashName.StoreNameFits` | src/vhashify.c:580-581 | root, path, counter and terminator fit the caller's buffer |
| `HashName.StoreNameInjective` | src/vhashify.c:396-414 | digest and index can be read off a store name |
| `HashName.TempNameOutside` | lib_internal/unify-unify.c:69-70 | the temporary name of a file outside the store is outside the store |
| `HashName.StoreNamesAreGood` | src/vhashify.c:396-414 | the names that the code builds have all that the run theorems assume of names |
| `HashStore.HonestStoreIsSound` | src/vhashify.c:426-433 | a store in which every non-empty file carries its own digest in its name is sound; so is an empty one |
| `HashStore.CopySoundUnlessPoisonous` | src/vhashify.c:541-551 | the copy left behind is a sound reference if and only if it is not poisonous |
| `HashStore.CutCopyIsTaken` | src/vhashify.c:541-551 | a concrete file and failure for which the zeroes left behind are poisonous: they are accepted, but are not its content |
| `HashStore.PlacedFilesAreShared` | src/vhashify.c:277-304 | two placed files with equal hashed key and content are one inode |
| `HashStore.SoundKept` | src/vhashify.c:516-558 | a visit that adds at most one sound reference keeps the store sound |
| `HashStore.GuestsStayKnown` | src/vhashify.c:516-558 | after a visit every path outside the store still holds a file that the run may meet |
| `HashStore.PlacedKept` | src/vhashify.c:516-558 | a visit to one entry leaves every other placed entry placed |
| `Hashify.ResolveCollisions` | src/vhashify.c:396-459 | the search ends at the least index whose name is absent, the file itself or acceptable; when it gives up and when it finds the file itself, both ways; it returns the size of the reference, or 0 for none, and creates the marker only for an absent name |
| `Hashify.StopsAt` | src/vhashify.c:411-456 | the search gives up, or finds the file itself, at one index only, so that these ends have an exact condition |
| `Hashify.MarkerNeverClashes` | src/vhashify.c:62-64 | the size 0 stands for an absent reference and nothing else: a reference that is accepted has the size of the file, at least HASH_MINSIZE |
| `Hashify.FirstNamesDiffer` | src/vhashify.c:411-414 | the first n names for a digest are n different names |
| `Hashify.NamesRunOut` | src/vhashify.c:411-456 | the search passes at most as many indices as there are names, so it terminates |
| `Hashify.LinkFrame` | lib_internal/unify-unify.c:56-106 | a link over an entry changes that entry, the temporary name and flags only, and drops the entry if and only if `Spares` fails |
| `Hashify.LinkOutcome` | lib_internal/unify-unify.c:56-120 | the outcomes of a link over an entry: the link, the entry kept if and only if the failures spare it and gone otherwise, or the entry under its temporary name |
| `Hashify.LinkGuest` | src/vhashify.c:554 | the entry becomes a link to the reference, or is kept under its temporary name, or the call fails, and then the entry stays if and only if the failures spare it, and its name is gone otherwise; with no failure it becomes the link |
| `Hashify.CopyIntoStore` | src/vhashify.c:542-543 | only the store name changes; what is left there is the marker or the copy, complete exactly on success |
| `Hashify.CopyThenLink` | src/vhashify.c:541-551 | while guests run: what becomes of the entry and of the store name in every outcome, after the clean-up; a cut copy leaves the entry alone and stays exactly as it was cut |
| `Hashify.LinkSlot` | src/vhashify.c:548 | the marker becomes a link to the entry; the entry itself is never touched, and no exit is fatal |
| `Hashify.LinkIntoStore` | src/vhashify.c:548-551 | while no guest runs: entry untouched, store name linked to it or cleaned up |
| `Hashify.LeftIsSound` | src/vhashify.c:538-551 | whatever a visit leaves under a fresh store name is a sound reference, unless it is a poisonous copy of this very file |
| `Hashify.DoIt` | src/vhashify.c:516-558 | by the size of the reference alone: success makes entry and store name one inode, which reads as the entry did if the reference has its content; failure leaves the entry or, if it is not spared, takes its name away; what a fresh name is left with; a dry run changes nothing |
| `HashVisits.CheckEntry` | src/vhashify.c:196-238 | an entry goes on to be unified if and only if it is an existing regular file of 16 bytes at least that is not excluded, unsupported, on another device, unhashable, or locked with several links and no refresh |
| `HashVisits.CheckIsRight` | src/vhashify.c:196-238 | each answer of the checks is given exactly under its own condition |
| `HashVisits.SearchIsRight` | src/vhashify.c:461-494 | likewise for the answers after the checks: the search gives up, finds the file itself, or the file is unified, or not, or the exit is fatal |
| `HashVisits.UnifyEntry` | src/vhashify.c:461-494 | collision search and doit together, whatever fails: the outcome in terms of the entry, the least fitting store name and the temporary name |
| `HashVisits.AttemptKeeps` | src/vhashify.c:516-558 | an attempt that leaves nothing poisonous keeps the store sound and the entry readable, unless it takes its name away, and places the entry whenever the program says so |
| `HashVisits.VisitEntry` | src/vhashify.c:560-600 | every answer has its exact condition; skipped entries change nothing; a fatal exit takes a restoring rename that fails; the others are attempted, and unified or found to be shared if nothing fails |
| `HashVisits.VisitKeeps` | src/vhashify.c:560-600 | every visit that leaves nothing poisonous keeps the invariant and the promise to its entry |
| `HashCalm.StaysUntouched` | src/vhashify.c:516-558 | a file that no visit has touched has no flags or names added by a visit that goes well, or has the inode of the entry of that visit, which is placed |
| `HashCalm.StepPlaces` | src/vhashify.c:560-600 | a visit that goes well places its file, if that was regular, large enough and not unified by its looks when the run started |
| `HashCalm.CalmGoesOn` | src/vhashify.c:560-600 | a run in which nothing fails keeps what all paths outside the store read, and all visited files that can be unified are placed |
| `HashCalm.CalmEnd` | src/vhashify.c:560-600 | at its end any two of these that were equal at the start are one inode |
| `HashVisits.PoisonedRun` | src/vhashify.c:538-555 | for every file that a cut copy can be taken for: after a failed and a good visit its path reads the cut copy |
| `HashRuns.ViewStep` | src/vhashify.c:516-558 | over one visit a path reads the same, or its name is taken away and stays away, unless it is also a temporary name |
| `HashRuns.ViewsStep` | src/vhashify.c:516-558 | likewise for all paths outside the store |
| `HashRuns.PlacedIsDeduplicated` | src/vhashify.c:426-456 | if all entries that are said to be unified are placed unless taken away later, equal ones are one inode |
| `HashRuns.HarmlessNow` | src/vhashify.c:516-558 | failures that leave nothing poisonous for the file a path had at the start of a run leave nothing poisonous when it is visited |
| `HashRuns.SafePaths` | lib_internal/unify-unify.c:95-108 | a path whose visits neither fail to put a backup back nor lose sight of the file reads the same content, kind, mode, owner (and time, unless ignored) |
| `HashRuns.HashifyRun` | src/vhashify.c:396-600 | over any sequence of visits that leave no poisonous copy: every view kept or its name taken away by a fatal exit, for which its own restoring rename must fail, or a failed link that did not spare it; store names kept, backup kept at a fatal exit, deduplication of what is said to be unified; a dry run changes nothing; and if nothing fails, equal files that can be unified are one inode |
| `HashDirs.FindDevice` | src/vhashify.c:182-192 | the answer is that of a plain search, and the table is shifted once |
| `HashDirs.AddHashDir` | src/vhashify-init.hc:53-77 | a directory is added exactly if the search finds no record for its device, and no two records answer to one device |
| `HashDirs.DevicesStayPut` | src/vhashify.c:182-192 | after any searches every device leads to the record it led to at first |
| `HashDirs.FoundRightIff` | src/vhashify.c:172-180 | the record found is that of the device asked for, or none, if and only if no registered device differs from it by a multiple of 2^32 |
| `HashDirs.AliasIsRefused` | src/vhashify-init.hc:53-58 | of two devices that differ in bit 32 the second is refused, and its search leads to the first |
| `MakeDirs.Tree.Mkdir` | lib_internal/mkdir.c:33 | mkdir(2): which error is reported when, and that only the named directory is added |
| `MakeDirs.MkdirSingle` | lib_internal/mkdir.c:29-43 | the three results, and that the buffer is mended unless the call fails |
| `MakeDirs.FindBackward` | lib_internal/mkdir.c:45-50 | the nearest slash at or before a position |
| `MakeDirs.TryBackward` | lib_internal/mkdir.c:62-67 | one round backward: on success everything above that slash exists |
| `MakeDirs.FindExisting` | lib_internal/mkdir.c:62-70 | the first loop ends at a directory that exists, or the path has no slash but the leading one |
| `MakeDirs.TryForward` | lib_internal/mkdir.c:75-80 | one round forward: one more ancestor exists, or a call was refused |
| `MakeDirs.MakeForward` | lib_internal/mkdir.c:73-83 | the second loop makes all further ancestors and restores the buffer |
| `MakeDirs.MkdirRecursive` | lib_internal/mkdir.c:52-84 | true if and only if the path is absolute, not a single name below the root, and no call fails but with EEXIST or ENOENT, which without failing calls means that no name above the deepest directory is a file; then all ancestors are directories, but that the deepest may be a file; only ancestors are ever added |
| `MakeDirs.AllButDeepest` | lib_internal/mkdir.c:33-36 | where all ancestors exist, all are directories but possibly the deepest |
| `PathNames.OneName` | lib_internal/mkdir.c:47-50 | a non-empty string without slashes is one name |
| `PathNames.NamesSplit` | lib_internal/mkdir.c:47-50 | the names on a path are those on both sides of any of its slashes |
| `Resolver.NumberReads` | src/rpm-fake.c:558-561 | the four bytes of a number read back |
| `Resolver.InitialInv` | src/rpm-fake.c:404-411 | the invariant holds before the handshake |
| `Resolver.ClientKeepsInv` | src/rpm-fake.c:549-563 | every system call of the client keeps the invariant |
| `Resolver.ServerKeepsStreams` | src/rpm-fake-resolver.c:136-205 | every call of the server keeps both streams on frame boundaries, and it drops no request with a short name |
| `Resolver.ServerKeepsTokens` | src/rpm-fake-resolver.c:207-223 | every call of the server keeps the token balance |
| `Resolver.ServerKeepsInv` | src/rpm-fake-resolver.c:136-223 | every system call of the server keeps the invariant, however many bytes a read returns |
| `Resolver.RunKeepsInv` | src/rpm-fake-resolver.c:207-223 | the invariant holds after every interleaving |
| `Resolver.RequestsAreLookups` | src/rpm-fake.c:565-604 | the requests of a program are its lookups, at their positions, in order and all of them |
| `Resolver.ReplyReads` | src/rpm-fake.c:562-581 | what the caller gets from the reply to an answer is that answer, and an unknown name is sent as the code 0 and the result -1 |
| `Resolver.RepliesNeverCross` | src/rpm-fake.c:549-618 | in every interleaving with interspersed closes the replies accepted hand the name service's answers to the first lookups of the program to their callers, in order: an id, or nothing; no read comes back short |
| `Resolver.TokensConserved` | src/rpm-fake-resolver.c:212-222 | when the server waits for a command, the unread tokens are one more than the closes processed, less the one that the client holds |
| `Resolver.WaitingClientHasServer` | src/rpm-fake.c:525-563 | while the client waits the server can move, and each move uses up a bounded amount of work |
| `Resolver.ClientIsWoken` | src/rpm-fake.c:525-563 | no lost wake-up: within Work(s) server calls the client's read returns |
| `ResolverEnds.ClientCallCosts` | src/rpm-fake.c:525-618 | every call of the client uses up some of what is left to do, where a byte that it writes counts for five calls of the server |
| `ResolverEnds.ServerCallCosts` | src/rpm-fake-resolver.c:136-223 | every call of the server uses up some of what is left to do, however many bytes a read returns |
| `ResolverEnds.SomebodyMoves` | src/rpm-fake.c:404-411 | no deadlock: until the client is gone and the server has exited, one of them can make a call |
| `ResolverEnds.RoundCosts` | src/rpm-fake-resolver.c:207-223 | a round that gives both processes a turn, in any order, uses something up |
| `ResolverEnds.EveryRunEnds` | src/rpm-fake.c:549-618 | after a number of rounds that depends on the program alone the client is gone, the server has exited, and the caller of every lookup has got the name service's answer |
| `ResolverEnds.TakingTurnsEnds` | src/rpm-fake-resolver.c:207-223 | so in particular when client and server take turns, with the same answers |
| `ResolverRuns.ShortLookup` | src/rpm-fake.c:549-563 | from a quiet state a short lookup can be completed, and leads to a quiet state with its answer |
| `ResolverRuns.CloseIsDone` | src/rpm-fake.c:606-618 | from a quiet state a close can be completed, and leaves one more token |
| `ResolverRuns.LongNameLosesFrame` | src/rpm-fake-resolver.c:151-170 | every program with a long name can be run to a state off the frame boundaries |
| `ResolverRuns.FramingKeptIff` | src/rpm-fake-resolver.c:151-191 | both streams stay on frame boundaries in all interleavings, for all sizes of reads, if and only if all names of the program are shorter than MAX_RQSIZE |
| `ResolverRuns.LongNameGetsWrongReply` | src/rpm-fake-resolver.c:207-223 | from the start of the program a lookup of a long name can end with an accepted reply that is no answer of any name service |
| `InodeTable.SpliceRepresents` | src/vdu.c:154-178 | linking a new number at its place keeps all chains ascending, in their residue class, and adds that member |
| `InodeTable.HashTable.Find` | src/vdu.c:154-174 | the walk stops in front of the first entry that is not smaller |
| `InodeTable.HashTable.Relink` | src/vdu.c:158-178 | one store links the new entry in, at the head, in the middle or at the end, and leaves all other chains linked |
| `InodeTable.HashTable.Insert` | src/vdu.c:140-181 | -1 exactly for members; the members grow by the number; all chains stay valid |
| `DiskUsage.Walk.VisitDirEntry` | src/vdu.c:211-229 | the counters and the table become those of counting all visited entries in order |
| `DiskUsage.Walk.VisitDir` | src/vdu.c:187-209 | likewise for the entries of a directory |
| `DiskUsage.ChainsReach` | src/vdu.c:187-229 | the entries visited are those that the chains of child positions lead to, in order |
| `DiskUsage.ChainsGo` | src/vdu.c:227-228 | a chain leads on exactly from directories on the root's device |
| `DiskUsage.ChainsDiffer` | src/vdu.c:187-229 | no chain is followed twice |
| `DiskUsage.AllChains` | src/vdu.c:227-228 | all chains of positions on which the entries before the last are directories on the root's device, each once |
| `DiskUsage.VisitsAreReached` | src/vdu.c:211-229 | an entry is visited once for every chain of positions on which all entries before the last are directories on the root's device, and not otherwise |
| `DiskUsage.SeenIsRight` | src/vdu.c:221-222 | the table holds exactly the numbers of wanted entries that do not have a single link |
| `DiskUsage.CountedOnceIff` | src/vdu.c:220-225 | if no two inodes with several links share a number, every wanted inode is counted at least once, and exactly once if and only if no inode with a single link appears twice |
| `DiskUsage.NoneMissedIff` | src/vdu.c:220-225 | if links are honest, every wanted inode is counted at most once, and all are counted if and only if no two with several links on different devices share a number |
| `DiskUsage.MountPointIsMissed` | src/vdu.c:221-222 | a directory and a mount point below it with the same number: one of the two is counted |
| `DiskUsage.CoverIsHonest` | src/vdu.c:221-222 | link counts that cover the names found are honest |
| `DiskUsage.OneDeviceIsApart` | src/vdu.c:227-228 | within one device no two inodes share a number |
| `DiskUsage.BlocksSummed` | src/vdu.c:223-224 | the blocks are at most the sum over the distinct inodes, all of it if no numbers are shared, and less if some are and no inode is without blocks |
| `DiskUsage.DiskUsageOf` | src/vdu.c:231-244 | over the entries that chains of directories on the root's device lead to, each once: inodes equal the cardinality, and blocks the sum, of the set of distinct wanted inodes by device and number, with the two conditions that are each necessary given the other |
| `SelfOrg.FirstMatchIs` | ensc_vector/list-search.c:32-33 | the first match is the only index with its two properties |
| `SelfOrg.LookupIs` | ensc_vector/list-search.c:32-36 | a search gives the element that matches with none before it, and nothing if none matches |
| `SelfOrg.ReorderPermutes` | ensc_vector/vector-searchselforg.c:43-67 | both methods permute the elements |
| `SelfOrg.SearchIsStable` | ensc_vector/vector-searchselforg.c:39-67 | a search finds the same again after it has reordered, even with duplicate keys |
| `SelfOrg.SearchesObserveNothing` | ensc_vector/vector-searchselforg.c:30-70 | with unique keys, after any searches by any methods the elements are a permutation and every key finds what it found |
| `SelfOrgList.List.Insert` | ensc_vector/list-insertinternal.c:32-57 | the new item stands in front of the given position, the count grows by one, all links stay valid |
| `SelfOrgList.List.Search` | ensc_vector/list-search.c:26-37 | the datum of the first match, or none |
| `SelfOrgList.List.Locate` | ensc_vector/list-searchselforg.c:39-57 | the first match and the items before it |
| `SelfOrgList.List.RelinkFront` | ensc_vector/list-searchselforg.c:42-50 | the items, by identity, are those of move-to-front, acyclic, same count |
| `SelfOrgList.List.RelinkOnce` | ensc_vector/list-searchselforg.c:62-66 | the items, by identity, are those of one adjacent swap, acyclic, same count |
| `SelfOrgList.List.SearchSelfOrg` | ensc_vector/list-searchselforg.c:29-76 | it returns what the plain search returns; the new order is exactly the reordering of the old |
| `Vector.Vector.Resize` | ensc_vector/vector-resizeinternal.hc:29-39 | the elements are kept and the capacity exceeds the count |
| `Vector.Vector.Pushback` | ensc_vector/vector-pushback.c:26-34 | one more place, the old elements kept |
| `Vector.Vector.Insert` | ensc_vector/vector-insert.c:26-42 | the place in front of the first element that the key is before; all others keep their order |
| `Vector.BsearchFinds` | ensc_vector/vector-search.c:36 | on an ordered sequence, with any number of equal elements, binary search fails if and only if no element equals the key |
| `Vector.Vector.Search` | ensc_vector/vector-search.c:29-37 | the loop computes binary search, on ordered and other vectors |
| `Vector.Vector.SearchSelfOrg` | ensc_vector/vector-searchselforg.c:30-70 | it returns the first match; the contents are exactly the reordering of the old |
| `XidCache.CmpMapOrdersIff` | src/lsxid.c:93-100 | the comparison orders two ids as numbers if and only if their difference fits an int |
| `XidCache.CmpInWindow` | src/lsxid.c:99 | within a window of 2^31 ids that may go round, the comparison is the difference of the offsets |
| `XidCache.CompareOrders` | src/lsxid.c:93-100 | within a window the comparison meets what bsearch demands |
| `XidCache.SortedIsSearchable` | src/lsxid.c:107 | in a vector that is sorted by a window every id is found where it is |
| `XidCache.FoundIffKnown` | src/lsxid.c:107 | if every id is found where it is, the search finds exactly the ids that are known, with their names |
| `XidCache.InsertKeepsSorted` | ensc_vector/vector-insert.c:33-41 | insertion at the first id that the new one is below keeps the vector strictly sorted |
| `XidCache.Cache.LookupContext` | src/lsxid.c:102-124 | the vector, the name and whether the resolver is asked are those of search and insertion on sequences, for any ids |
| `XidCache.LookupKeeps` | src/lsxid.c:102-124 | a lookup on a searchable vector returns the known name or the answer, asks exactly for unknown ids, and remembers |
| `XidRuns.AfterIsFirst` | src/lsxid.c:107-119 | what the cache knows is the answer given when each id was first asked for |
| `XidRuns.LookupAll` | src/lsxid.c:102-124 | any sequence of lookups returns the names, and makes the calls, of the cache as a sequence |
| `XidRuns.LinedIsSearchable` | src/lsxid.c:93-107 | in the vectors that few ids lead to every id is found where it is, in one window or not |
| `XidRuns.LinedInsert` | ensc_vector/vector-insert.c:33-41 | insertion leads from such a vector to such a vector, for at most two ids, or three of which no two are opposite |
| `XidRuns.CacheIsTransparent` | src/lsxid.c:102-124 | for ids in one window, and for few ids, every lookup of any sequence returns the first answer for its id; one resolver call per distinct id |
| `XidRuns.OppositesMiss` | src/lsxid.c:93-124 | two ids exactly 2^31 apart and a third going up from the first: after three lookups the first id is in the vector but is not found, so that the resolver is asked again and its second answer returned |
| `XidRuns.AskedTwice` | src/lsxid.c:102-124 | in particular for the ids 0, 2^31 and 2^30 |
| `XidRuns.CircleMisses` | src/lsxid.c:93-124 | three ids in a circle, and a fourth between the middle one and the first: after four lookups the fourth is in the vector but is not found |
| `XidRuns.FirstOrCircle` | src/lsxid.c:93-100 | ids of which no two are opposite have a first one, or three of them lie in a circle |
| `XidRuns.CircleIsMixed` | src/lsxid.c:93-100 | no id is below, or above, all three of a circle |
| `XidRuns.FourOf` | src/lsxid.c:93-100 | every circle and a fourth id give the four ids of the failing run |
| `XidRuns.TransparentIff` | src/lsxid.c:102-124 | all sequences of lookups from a set of ids are transparent if and only if the ids lie in one window, or are at most two, or three of which no two are opposite |
| `MountOptions.SearchOption` | src/secure-mount.c:542-550 | the first entry that has the item as a prefix, or none |
| `MountOptions.OptionForIs` | src/secure-mount.c:542-550 | the option is that of the first row whose name starts with the item, or there is no such row |
| `MountOptions.FlagsWithinMasks` | src/secure-mount.c:146-184 | every option of the table sets only bits that it masks |
| `MountOptions.OnlyDevMeansDev` | src/secure-mount.c:146-156 | an item means the option "dev" if and only if it is "dev" |
| `MountOptions.NamesMeanThemselves` | src/secure-mount.c:146-184 | every name in the table leads to its own row, but for "user", which leads to the row of "users" |
| `MountOptions.PrefixSurprises` | src/secure-mount.c:147-176 | an empty item means "defaults", and "user" means "users" |
| `MountOptions.Restrictions` | src/secure-mount.c:156-163 | which bits, as numbers of mount(2), ro, nosuid, nodev and noexec set and rw, suid, dev and exec clear |
| `MountOptions.Writing` | src/secure-mount.c:152-171 | likewise for the options on writing, access times and remounting |
| `MountOptions.Binding` | src/secure-mount.c:149-182 | likewise for those that bind, move and share mounts |
| `MountOptions.Others` | src/secure-mount.c:147-183 | users, defaults, and the options that only leave a mark, or none |
| `MountOptions.ItemsSplit` | src/secure-mount.c:552-589 | the items contain no comma, and joined by commas they are the string again, but for a comma at its end |
| `MountOptions.MountInfo.TransformOptionList` | src/secure-mount.c:552-589 | flag, mask and xflag are those of folding the items in order; the unknown items are in the buffer, joined by commas |
| `MountOptions.UnknownIsNotEmpty` | src/secure-mount.c:573-577 | unknown items are non-empty |
| `MountOptions.CommaIsDue` | src/secure-mount.c:573-574 | something has been written to the buffer if and only if an unknown item has been met, as the test for the comma assumes |
| `MountOptions.BufferFitsIff` | src/secure-mount.c:556-578 | what is written with its terminator fits the buffer if and only if some item is known or a comma ends the list |
| `MountOptions.LastWriterWins` | src/secure-mount.c:566-571 | each flag bit is that of the last item whose option masks it, else its initial value |
| `MountOptions.LastItemDecides` | src/secure-mount.c:566-571 | in terms of positions: the item behind which none masks the bit decides it |
| `MountOptions.OtherBitsStay` | src/secure-mount.c:566-571 | a bit that no item masks stays |
| `MountOptions.MasksAddUp` | src/secure-mount.c:566-571 | mask and xflag have exactly the bits of all known items and those from before |
| `MountOptions.NoautoMarks` | src/secure-mount.c:175 | only items that mean noauto leave its mark |
| `MountOptions.UnknownItemsKept` | src/secure-mount.c:572-578 | the unknown items are kept, all of them and in order |
| `MountOptions.NodevClearIff` | src/secure-mount.c:566-571 | MS_NODEV is clear if and only if the last item that masks it is "dev", or none does and it was clear |
| `FstabLine.LineReads` | src/secure-mount.c:591-616 | a line written field by field with any white space reads back as its four fields, and its data field ends where it was written |
| `FstabLine.LineIff` | src/secure-mount.c:591-616 | a line is read as four fields if and only if it is made of them with white space in between |
| `FstabLine.BlankIff` | src/secure-mount.c:605-606 | a line is skipped if and only if it is white space, or a '#' follows its white space |
| `FstabLine.WhiteSpace` | src/secure-mount.c:592 | the six characters of isspace |
| `FstabLine.ParseFstabLine` | src/secure-mount.c:598-635 | comments, broken lines, swap, none, devpts and noauto: the result and the whole record for each, whether the parser stays in the memory behind the line, and that a good line is ignored exactly if one of its options is noauto and that is honoured |
| `FstabLine.MoveToNextField` | src/secure-mount.c:591-596 | the two loops end a field and find the next one, or the end of the line |
| `FstabLine.SplitLine` | src/secure-mount.c:605-616 | the four fields are stored, or the line is blank or broken; the fourth move goes on behind the data field, and stays in memory or not |
| `FstabLine.InsideIff` | src/secure-mount.c:591-616 | the fourth move stays in memory if and only if a character of the line follows the data field or something other than white space lies behind the line |
| `FstabLine.FileStaysInsideIff` | src/secure-mount.c:685-697 | the parser stays in the buffer of a whole file if and only if the data field of the last line does not run up to the '#' at the end |
| `FstabLine.NewlineIsEnough` | src/secure-mount.c:685-697 | it does for every file that ends with a newline |
| `FstabLine.LastFieldRunsOut` | src/secure-mount.c:616 | a one-line file without a newline whose line the parser leaves |
| `FstabLine.StartsWith` | src/secure-mount.c:618-629 | the options start from nodev alone, or on devpts from a mask with that bit and no flag |
| `FstabLine.DevicesAllowedIff` | src/secure-mount.c:618-634 | after parsing, devices are allowed if and only if the last option with a say is "dev", or none has and the type is devpts |
| `FsTool.Walker.IterateFilesystem` | src/fstool.c:60-145 | whatever fails, the calls of handleFile are exactly the walk, in order, and the result is the number of positions at which it failed plus the number of failing lstat, opendir and chdir calls in directories that chains of entered directories reach; so it is zero if and only if nothing counted fails |
| `FsTool.Walker.FirstPass` | src/fstool.c:81-103 | the first pass handles exactly the entries that are shown and not to be entered, counts failed lstats, and asks for a second pass exactly if there is a directory to enter |
| `FsTool.Walker.SecondPass` | src/fstool.c:105-139 | the second pass walks exactly the directories to be entered, and counts failed lstats and chdirs |
| `FsTool.FailuresAreRejected` | src/fstool.c:168 | the failures counted are the positions at which handleFile returned false |
| `FsTool.FailingAre` | src/fstool.c:60-139 | a call is among those that are counted exactly if it is made in a directory that is reached, and fails |
| `FsTool.FailedCalls` | src/fstool.c:60-139 | all calls that are made in directories that chains of entered directories reach, and fail, each once |
| `FsTool.ErrorsAreFailingCalls` | src/fstool.c:60-139 | their number is the number of failing calls, none left out and none counted twice |
| `FsTool.ProcessFile` | src/fstool.c:148-169 | a directory is walked unless it is to be shown itself; the result is the number of failed calls, each counted once, or whether the only call fails |
| `FsToolVisits.VisitsTheVisible` | src/fstool.c:60-145 | a visit takes place if and only if a chain of directories, each in the one before it and all entered, leads to it |
| `FsToolVisits.VisitsTheShown` | src/fstool.c:45-50 | with recursion on all file systems and without failing calls, exactly the entries are visited that have no hidden name on the way |
| `FsToolVisits.WalkIsBelow` | src/fstool.c:60-145 | all visits lie at or below the directory, and only the first is at it |
| `FsToolVisits.WalkInOrder` | src/fstool.c:73-139 | no path is visited twice; a directory comes before its content, plain entries before entered directories |
| `Format.NumeralReads` | ensc_fmt/fmt-internal.h:46-51 | the digit string written reads back as the value |
| `Format.NumeralStarts` | ensc_fmt/fmt-internal.h:46-51 | it has no leading zero, so it is the shortest |
| `Format.NumeralLength` | ensc_fmt/fmt-internal.h:37-42 | it has at most n digits if and only if the value is below base^n |
| `Format.LexOrderIsNumeric` | ensc_fmt/fmt-tai64n.c:40-46 | among digit strings of one length byte order is numeric order |
| `Format.PaddedReads` | ensc_fmt/fmt-tai64n.c:44-46 | zero padding does not change the value |
| `Format.Measure` | ensc_fmt/fmt-internal.h:37-42 | measure mode returns the length of what write mode writes |
| `Format.Write` | ensc_fmt/fmt-internal.h:43-54 | write mode writes exactly the digit string and nothing else |
| `Format.Produce` | ensc_fmt/fmt-internal.h:44-51 | the digits are produced right-aligned and fit the buffer |
| `Tai64n.AssertionHolds` | ensc_fmt/fmt-tai64n.c:33-41 | the seconds have 16 digits if and only if tv_sec is outside the gap |
| `Tai64n.FormatTai64n` | ensc_fmt/fmt-tai64n.c:30-51 | exactly the 25 bytes of the label are written |
| `Tai64n.LabelReads` | ensc_fmt/fmt-tai64n.c:30-51 | a label is '@' and 24 digits, and parses back to 2^62 + tv_sec and tv_usec * 1000 |
| `Tai64n.LabelsSort` | ensc_fmt/fmt-tai64n.c:30-51 | byte order of labels is time order, and equal labels are equal times |
| `PathInfo.OneSlashAtTheSeam` | lib_internal/pathinfo-append.c:35-46 | the result is the only string that is both sides with all slashes between them replaced by one |
| `PathInfo.NothingOnTheLeft` | lib_internal/pathinfo-append.c:37-50 | an empty left side leaves the right one as it is |
| `PathInfo.JoinGoesBelow` | lib_internal/pathinfo-append.c:35-49 | the names on the joined path are those of the left and then those of the right; it is absolute exactly if the left side is |
| `PathInfo.JoinIsAssociative` | lib_internal/pathinfo-append.c:26-54 | joining is associative on all strings |
| `PathInfo.Trim` | lib_internal/pathinfo-append.c:35 | the loop leaves the left side without its trailing slashes, but one character at least |
| `PathInfo.SkipSlashes` | lib_internal/pathinfo-append.c:38-41 | the loop passes exactly the leading slashes and stops at the terminator |
| `PathInfo.Append` | lib_internal/pathinfo-append.c:26-54 | left side, one slash and right side with the terminator are in the buffer of ENSC_PI_APPSZ bytes, and nothing behind them is written; an empty left side leaves the right one as it is |
| `PathInfo.Examples` | lib_internal/pathinfo-test.c:40-55 | the joins that the original's own checks list |

## Left out

- The hash is an abstract function without collisions among the finitely many files that a run meets; crypto back ends and calculateHash's mapping loop are not modelled.
- vhashify is modelled on one device with fewer than 2^32 names, so that the counter does not wrap; st_rdev is 0 on the regular files that are hashed.
- The order in which vhashify's recursion reaches entries is an arbitrary sequence of visits; match lists, verbosity and messages are the flag `excluded` or left out.
- HashRuns.HashifyRun: assumes that no visit leaves a poisonous copy of the file that its path has at the start, if that file is considered at all; for a path that gets its file only during the run, of no file that the run may meet. HashRuns.PoisonedRun shows the harm otherwise.
- Other processes that write to the tree, and memory faults in the middle of a mapped block.
- Unify_copy on symlinks, devices, directories and sockets, Unify_deUnify, vclone and vcopy: easier variants of the same steps.
- The resolver's pipes are unbounded and neither process is killed; names are shorter than 2^32 bytes, so that strlen fits its uint32_t; the client's wait for the context after 'Q' is not modelled.
- vdu's counters are unbounded, as is the number of blocks; fatal lstat and chdir errors end the program and have no result to state.
- FsTool.Walker.IterateFilesystem: paths are sequences of names, not display strings, and the tree does not change during the walk.
- MountOptions.MountInfo.TransformOptionList: the buffer is a string, which is empty when every item is known, where the original never writes it; the column counter is left out.
- FstabLine.SplitLine: a line has no NUL character in it, which would end it early; the column for messages is left out.
- The mount calls of secure-mount, mtab and locking.
- Memory exhaustion, and the element size and byte copies of the generic containers; bsearch(3) is taken as the halving that the GNU C library does.
- System call wrappers, capability and flag lists, contexts, networks, terminals, start-up scripts and the Python binding: no algorithm of their own.
