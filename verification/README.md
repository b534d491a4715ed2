# A verified model of the Native Client file system

The repository gives programs in the browser sandbox a POSIX-like file system:
a kernel proxy with descriptors and a working directory, a mount table, and a
memory mount whose directory tree is encoded in numbered slots. Remote mounts
are reached through a runner that executes jobs on the browser's main thread.

The model has three layers.

1. **Objects.** `PathHandle`, `SlotAllocator`, `MemNode`, `MemMount`,
   `MountManager`, `KernelProxy`, `MainThreadRunner` and `AppEnginePost` are
   classes that change their fields as the code does. Every method is proved
   equal to a function on the old state.
2. **Tables.** Modules `Paths`, `Slots`, `Tree`, `Mounts`, `Kernels`, `Runners`
   hold those functions. A disk is a table of nodes with child lists, parent
   slots and use counts; a kernel adds descriptor and handle tables.
3. **Reference.** `FlatFs` is a map from canonical paths to inode numbers plus
   a table of inodes without counts, parents or child lists. `Worlds` gives the
   meaning of each system call over it: an open file is one entry, and a file
   without a name lives as long as some entry holds it.

The main results connect the layers:

- every legal call of the proxy object answers as the reference does
  (`KernelProxy.Syscall`), and so does every legal run of calls (`RunSim`);
- what each call does is also said of the tables and bytes alone (`Calls`): which
  bytes `read` returns and `write` replaces, where `lseek` and `chdir` go, which
  names `mkdir`, `open`, `remove` and `rmdir` add or take away, with which
  error they fail, and that every other name leads where it did;
- a defined run of calls has consistent tables all along if and only if no
  `rmdir` or `remove` in it takes away the root of a mount or a directory with
  a handle on it (`RunConsistent`, and `StepConsistentIff` for one call).
  Consistent means: use counts are exactly links plus handles, no handle is on
  a freed slot, each node hangs once under its parent, climbing ends at the
  root and walking back down returns, descriptors and handles are in lockstep;
- a run is defined if besides that it never opens the root and never seeks
  behind the end of a file (`CarefulRunIsDefined`);
- a file has at most one descriptor that can write it, ever, and is frozen once
  that is closed (`AtMostOneWriter`, `ClosedIsFrozen`);
- what is written in any pieces is read back in any pieces
  (`KernelReturnsWhatWasWritten`), and buffers grow at amortised constant cost;
- collapsing obeys an exact composition law (`CollapseComposition`), and the
  two ways in which the code resolves relative paths agree exactly when the
  path does not climb above its start or the working directory is the root
  (`ResolutionsAgreeIff`);
- string-prefix routing finds the mount and the components that component-wise
  routing finds exactly when the winning key ends at the end of a component, or
  one slash behind a directory that is a key for the same mount
  (`RoutesAgreeIff`), and `open`, which routes the parent, finds what `stat`
  finds under an exact condition on the winning key
  (`OpenAndStatRoutesAgree`);
- the runner, for any interleaving of any number of clients, never touches an
  entry whose owner has returned, serves in push order, and serves everybody
  after a bounded number of main-thread steps; and with posts as its jobs, who
  returns has everything its transfer received (`ReturnedMeansTransferred`).

What the code does, and not what its names or comments suggest, is modelled:

- `flags && O_CREAT` is a logical "and" (base/KernelProxy.cc:105): any nonzero
  flags create exclusively (`Calls.OpenCreatesOrFinds`). `Contents.OpenExisting`
  proves that what opens with zero flags opens with no others.
- `SEEK_END` subtracts the offset (base/KernelProxy.cc:326).
- a freed slot is reused largest first (base/SlotAllocator.h:60).
- routing compares strings: "/mn" claims "/mnt/x" (`RoutingSplitsComponents`).
- `open` collapses a relative path before joining it, `chdir` and `mkdir` after
  (`ResolutionsDiffer`).
- `rmdir` of an empty root frees slot 0 (`RemovingRootSucceeds`), and `rmdir`
  of an open directory leaves a handle on a freed slot
  (`RemovingOpenDirectorySucceeds`).
- a post whose request cannot be opened never reports
  (`FailedOpenNeverReports`), and then the main thread stops for good
  (`StuckPostStopsEverything`).
- a listing copies names into fields of 256 characters and ends them only if
  there is room, so that a reader finds the entries exactly if all names have
  fewer than 256 characters and no zero among them (`GetdentsIsExact`).
- `access` asks about "//mnt" where `stat` asks about "/mnt", and so never leaves
  the mount at "/" (`AccessMissesMount`).
- a post reports the result 1 for failed transfers as well (`JobOutcome`).

## Model

| member | source | states |
|---|---|---|
| Theorems.RunConsistent | base/KernelProxy.cc:101-207 | from empty mounts, a run whose calls are all defined has consistent tables before, between and after the calls if and only if it removes no mount root and no directory with a handle; then its replies are those of the reference |
| Theorems.CarefulRunIsDefined | base/KernelProxy.cc:209-341 | from empty mounts, a run that opens no root, removes no directory in use and seeks behind no end of file is defined throughout, keeps consistent tables, gets the reference's replies, and leaves every offset inside its file |
| Theorems.StepConsistentIff | base/KernelProxy.cc:352-467 | of all defined calls, exactly a remove or rmdir of an empty directory that is a mount's root or has a handle on it leaves inconsistent tables |
| Theorems.RunIsLegalIff | base/KernelProxy.cc:24-467 | from any state related to the reference, sparing directories in use, being legal for the reference, and staying consistent are the same for a defined run |
| Theorems.LegalIff | base/KernelProxy.cc:352-467 | a call is legal for the reference exactly if the code defines it and it removes no directory in use, said in terms of slots and handles |
| Theorems.RemoveConsistentIff | base/KernelProxy.cc:352-372 | a successful remove leaves consistent tables if and only if it removed a file, or a directory that is not slot 0 and has no handle on it |
| Theorems.RemovingOpenDirectorySucceeds | base/KernelProxy.cc:460-467 | mkdir, open and rmdir of the same directory all succeed on a fresh system, and leave a handle on a freed slot |
| Theorems.CarefulStep | base/KernelProxy.cc:296-341 | one careful call with all offsets inside their files is defined and keeps them there |
| KernelProofs.RunSim | base/KernelProxy.cc:24-467 | over any legal run the replies of the slot-encoded kernel are those of the flat reference world, and the simulation holds at the end |
| KernelProofs.StepSim | base/KernelProxy.cc:24-467 | each legal system call keeps the simulation and returns the reference's reply |
| Theorems.SimConsistent | memory/MemMount.cc:22-274 | any kernel state related to the reference has exact use counts, an acyclic tree with one owner per node, and lockstep descriptor tables |
| Theorems.RmDirConsistentIff | base/KernelProxy.cc:460-467 | a successful rmdir leaves consistent tables if and only if the directory is not slot 0 and no handle is on it |
| Theorems.RemovingRootSucceeds | memory/MemMount.cc:241-247 | on a fresh system rmdir("/") reports success and frees slot 0, which breaks the tables |
| Theorems.LastCloseFrees | base/KernelProxy.cc:185-207 | close of a live descriptor never misses its handle, and the file survives exactly if it is still linked or another handle is on it |
| Theorems.BootSim | base/MountManager.cc:29-37 | empty mounts and empty tables stand for the empty reference world |
| Theorems.OwnsEachOnce | memory/MemNode.cc:58-70 | a node occurs in the child list of its parent slot only, its siblings have other names, climbing from it ends at the root, and looking up the path so found returns it |
| KernelProofs.ChDirSim | base/KernelProxy.cc:24-60 | chdir changes the directory exactly when the joined and collapsed path is a directory of the reference |
| KernelProofs.MkDirSim | base/KernelProxy.cc:439-458 | mkdir adds the one binding the reference adds, or fails with the same error and no change |
| KernelProofs.RmDirSim | base/KernelProxy.cc:460-467 | every rmdir gets the reference's reply, and the tables go on matching the reference if and only if no directory in use was removed |
| KernelProofs.RemoveSim | base/KernelProxy.cc:352-372 | every remove gets the reference's reply: it takes away the name of a file, and its inode unless a handle holds it, and a directory goes through rmdir; the tables match if and only if no directory in use was removed |
| KernelProofs.StatSim | base/KernelProxy.cc:374-381 | stat describes the inode that the flat map gives for the path |
| KernelProofs.OpenSim | base/KernelProxy.cc:145-183 | open through parent, mount and remainder reaches the reference's target, with the same descriptor or error |
| KernelProofs.OpenHandleSim | base/KernelProxy.cc:101-143 | nonzero flags create exclusively, zero flags open what is there; a new descriptor is the largest free slot and counts one reference |
| KernelProofs.OpenPaths | base/KernelProxy.cc:146-165 | what the several reformulations of the path in open amount to: working directory plus collapsed path, its parent, and its last name |
| KernelProofs.CloseSim | base/KernelProxy.cc:185-207 | close drops the entry and releases the inode exactly if it has no name and no other holder |
| KernelProofs.ReadSim | base/KernelProxy.cc:209-229 | read returns the slice of the content at the handle's offset and moves the offset by its length |
| KernelProofs.WriteSim | base/KernelProxy.cc:231-253 | write splices the bytes into the content at the handle's offset and moves the offset |
| KernelProofs.LSeekSim | base/KernelProxy.cc:296-341 | lseek sets the offset by whence, subtracting for SEEK_END, and refuses negative results, directories and unknown whence |
| KernelProofs.FindNodeIsLookup | base/MountManager.cc:70-100 | routing plus walking the slots equals looking the path up in the flat map of the mount |
| KernelProofs.HandleSeen | base/KernelProxy.cc:469-475 | a descriptor leads to the handle with the same number, on a live node of a known mount, or to nothing |
| KernelProofs.RefsUpdate | base/KernelProxy.cc:124-134 | changing one entry of the handle table changes the multiset of held nodes by that entry only |
| Calls.ReadReturns | base/KernelProxy.cc:209-229 | read of a directory or with access mode 1 gives EBADF; otherwise it returns as many bytes as are left and were asked for, byte by byte those of the file from the offset on, and moves the offset by their number |
| Calls.WriteReplaces | base/KernelProxy.cc:231-253 | write of a directory or with access mode 0 gives EBADF; otherwise every byte from the offset on is the written one, every byte before and behind is as it was, length and capacity grow as needed, and no other node changes |
| Calls.OverwritesMiddle | memory/MemMount.cc:334-363 | write, seek back, overwrite the middle, read all: only the middle has changed |
| Calls.LSeekMoves | base/KernelProxy.cc:296-341 | the new offset for each whence, EINVAL below zero, EBADF for directories, and nothing else changed |
| Calls.FStatTells | base/KernelProxy.cc:255-265 | number, kind and length of the node of the descriptor |
| Calls.NoDescriptor | base/KernelProxy.cc:469-475 | every call on a number that is no descriptor gives EBADF and changes nothing |
| Calls.ChDirGoes | base/KernelProxy.cc:24-60 | an absolute path leads to its own collapsed path, a relative one below or above the working directory; the directory changes exactly if that is a directory and the old one is still mounted, and otherwise nothing does |
| Calls.MkDirMakes | base/KernelProxy.cc:439-458 | ENOTDIR without a mount, EEXIST if the path exists, ENOENT without a parent, ENOTDIR if the parent is a file, each changing nothing; otherwise an empty directory at the path, and every other path as before |
| Calls.MkDirIgnoresCwd | base/KernelProxy.cc:445-450 | for an absolute path mkdir gives the same reply and disks from every working directory |
| Calls.OpenCreatesOrFinds | base/KernelProxy.cc:101-183 | with any flag bit set, open of an existing name gives EEXIST, without a parent directory ENOTDIR, and otherwise makes an empty file and a new descriptor on it; without flags it gives ENOENT or a new descriptor on what exists; every other name and descriptor is as before |
| Calls.RemoveUnbinds | base/KernelProxy.cc:352-372 | remove of what is missing gives ENOENT, of a directory with something inside ENOTEMPTY; otherwise the path is gone and every other path as before |
| Calls.RmDirUnbinds | base/KernelProxy.cc:460-467 | the same for rmdir, with ENOTDIR for files, and ENOENT for relative paths |
| Calls.CloseKeepsNames | base/KernelProxy.cc:185-207 | close frees the number and its handle, no other descriptor, and changes nothing that has a name |
| Calls.StatTells | base/KernelProxy.cc:374-381 | stat tells what the routed mount has at the path, and ENOENT for relative paths |
| Calls.NodeSeen | memory/MemMount.cc:107-117 | GetNode of any path finds exactly the bound names, with number, kind and length of the content |
| Calls.EmptyPathsFail | base/KernelProxy.cc:27-30 | chdir and mkdir of the empty path, and open of a relative path that collapses to nothing, fail and change nothing |
| Contents.KernelReturnsWhatWasWritten | base/KernelProxy.cc:209-253 | create, write in any chunks, close, reopen, read in any chunks: the bytes that come back are the concatenation, or its first bytes if fewer were asked for |
| Contents.WriteThenReadBack | memory/MemMount.cc:317-363 | the same round trip in the reference world, whose runs are all legal |
| Contents.WritesAreOneWrite | base/KernelProxy.cc:231-253 | a run of writes leaves the same world as one write of the concatenation |
| Contents.ReadsAreOneRead | base/KernelProxy.cc:209-229 | a run of reads returns, in pieces, what one read of the summed size returns |
| FlatFs.SpliceIs | memory/MemMount.cc:341-362 | length and every byte of a content after a write, in terms of the old content and the written bytes |
| FlatFs.SliceIs | memory/MemMount.cc:323-331 | length and every byte of what a read returns, in terms of the content |
| Contents.SpliceTwice | memory/MemMount.cc:341-362 | consecutive splices compose to one |
| Contents.SliceTwice | memory/MemMount.cc:323-331 | consecutive slices compose to one |
| Contents.OpenExisting | base/KernelProxy.cc:105-122 | any canonical path that opens with zero flags fails with EEXIST for any others; the paths that open with zero flags are those that stat finds whenever open and stat are routed to the same place |
| Offsets.OffsetsStayInBounds | base/KernelProxy.cc:296-341 | while every offset is inside its file all reads and writes are defined, and a legal call keeps it so if and only if it is not a seek beyond the end |
| Writers.AtMostOneWriter | base/KernelProxy.cc:105-135 | in every state of a run from empty mounts that removes no directory in use, no two descriptors can write the same node |
| Writers.ClosedIsFrozen | base/KernelProxy.cc:185-253 | once the descriptor that can write a file is closed, no run of calls changes the content of the file while it lives |
| Writers.FrozenWhileAlive | base/KernelProxy.cc:231-253 | as long as it lives, a file that no descriptor can write keeps its content over any run |
| Writers.FrozenWhileOpen | base/KernelProxy.cc:209-229 | a descriptor that stays open on such a file keeps it alive, with the same content over any legal run |
| Writers.OneWriterStep | base/KernelProxy.cc:101-143 | every legal call keeps it that no two descriptors can write the same node |
| Growth.GrowthIsAmortised | memory/MemMount.cc:341-362 | over any run of writes len <= capacity <= 2 len, all bytes carried over by reallocations fit the capacity, and g reallocations imply 2^g <= len + 1 |
| Access.AccessIffStat | base/KernelProxy.cc:383-437 | for a canonical path that no key but "/" claims, access with any mode succeeds if and only if stat does |
| Access.AccessIffInRoot | base/KernelProxy.cc:383-437 | with any mounts, access of a canonical path succeeds if and only if the mount at "/" has that path |
| Access.AccessIffPrefixesExist | base/KernelProxy.cc:383-437 | for any table without a key that starts with two slashes, access of any path, with the working directory in front if it is relative and not collapsed, succeeds if and only if every prefix of its components exists in the mount at "/", and gives ENOENT otherwise |
| Access.AccessBelowCwd | base/KernelProxy.cc:389-395 | access of a canonical relative path succeeds if and only if the mount at "/" has that path below the working directory |
| Access.AccessSkipsMounts | base/KernelProxy.cc:408-422 | with a mount at "/mnt", stat of "/mnt" succeeds, and access of it depends on the mount at "/" alone |
| Theorems.AccessMissesMount | base/KernelProxy.cc:408-422 | with two new mounts at "/" and "/mnt", stat("/mnt") succeeds and access("/mnt") fails |
| Access.NeverDenied | memory/MemNode.cc:29-41 | with the mode bits every node reports, no access mode is denied |
| Access.CheckedAlongTheWay | base/KernelProxy.cc:400-434 | checking the list of prefixes built first is checking them one by one while descending |
| TreeProofs.CreatRefines | memory/MemMount.cc:22-66 | Creat adds exactly one binding and an empty file, or fails as the reference does and changes nothing |
| TreeProofs.MkdirRefines | memory/MemMount.cc:68-105 | Mkdir adds exactly one binding and a directory, or fails as the reference does and changes nothing |
| TreeProofs.CreatOutcome | memory/MemMount.cc:26-59 | which error Creat reports in terms of the two walks, and the new slot, name and parent otherwise |
| TreeProofs.MkdirOutcome | memory/MemMount.cc:72-99 | which error Mkdir reports in terms of the two walks, and the new slot, name and parent otherwise |
| TreeProofs.UnlinkRefines | memory/MemMount.cc:204-224 | Unlink removes exactly one binding, and the inode if nothing holds it, or fails as the reference does; the empty path is not found |
| TreeProofs.UnlinkOutcome | memory/MemMount.cc:204-224 | which error Unlink reports, and that after RemoveChild the node still counts one reference too many, which Unref takes |
| TreeProofs.RmdirRefines | memory/MemMount.cc:226-248 | Rmdir always answers as the reference; it removes exactly the binding and inode of an empty directory and keeps the invariant, if and only if that is neither root nor held |
| TreeProofs.RmdirKeepsInvIff | memory/MemMount.cc:226-248 | after a successful Rmdir the tree is well formed under some naming if and only if the slot was neither 0 nor held |
| TreeProofs.RefKeepsInv | memory/MemMount.cc:250-256 | Ref adds one held reference and changes no inode |
| TreeProofs.UnrefRefines | memory/MemMount.cc:258-274 | Unref of a held reference frees the slot exactly when the file has no name and no holder left; without a held reference it keeps the invariant only for directories and dead slots |
| TreeProofs.WriteRefines | memory/MemMount.cc:334-363 | Write keeps the tree and its counts and is a splice of the content |
| TreeProofs.GetSlotIsLookup | memory/MemMount.cc:131-184 | the walk computes the map lookup of the canonical path, the parent walk that of its parent, and the check for slot 0 never fires |
| TreeProofs.WalkIsLookup | memory/MemMount.cc:145-170 | walking any components from any named node is a lookup in the flat map |
| TreeProofs.UpThenDown | memory/MemMount.cc:131-176 | climbing parent slots from a linked node ends within the size of the table, and GetSlot of the printed names returns the node |
| TreeProofs.ClimbingFindsName | memory/MemNode.h:72-79 | climbing from a node collects exactly its path |
| TreeProofs.DepthBound | memory/MemMount.cc:90-99 | a path has distinct nodes above it, as many as it is deep, so parent links have no cycle although slots are reused |
| TreeProofs.ListingIsExact | memory/MemNode.cc:80-86 | the names in a child list are exactly the paths one component below |
| TreeProofs.GetdentsIsExact | memory/MemMount.cc:276-315 | every record carries a nonzero number and the field that the name of an entry leaves; with room to spare every entry has a record, and what a reader finds are the entries, each once, if and only if all names fit with their terminator |
| TreeProofs.NameReadIff | memory/MemMount.cc:310 | a name is read back from its field if and only if it is shorter than the field and has no zero; otherwise its start up to the zero is found, or no end at all |
| TreeProofs.WithoutKeepsOrder | memory/MemNode.cc:65-70 | removing a child keeps the others in order |
| TreeProofs.OneOwner | memory/MemNode.cc:58-63 | two child lists that hold the same slot belong to one directory, the parent |
| TreeProofs.SiblingsDiffer | memory/MemMount.cc:42-47 | two children of one directory have different names |
| TreeProofs.EmptyIffNoEntries | memory/MemMount.cc:236-240 | a child list is empty if and only if no path lies below the directory |
| TreeProofs.EmptyDiskInv | memory/MemMount.cc:13-20 | the new mount stands for the file system with only the root |
| Tree.PutThenCount | memory/MemMount.cc:50-60 | counting the new file after linking it is the same as linking it counted |
| Paths.SplitListsMaximalRuns | base/PathHandle.cc:99-119 | Split lists, in order and completely, the maximal non-empty runs without the separator |
| Paths.ComponentsConcat | base/PathHandle.cc:99-119 | Split(x + "/" + y) = Split(x) + Split(y) |
| Paths.ParsePrint | base/PathHandle.cc:15-24 | parsing a printed path gives back its components and its absolute flag |
| Paths.CanonicalStringDecides | base/PathHandle.cc:26-29 | two paths have equal canonical strings if and only if flags and collapsed components agree |
| Paths.CanonOfPrint | base/PathHandle.cc:9-29 | printing and parsing a canonical path is the identity |
| Paths.CollapseComposition | base/PathHandle.cc:69-97 | collapse(a + b) is collapse(a) without its last components, as many as b climbs, followed by collapse(b) |
| Paths.CollapseOntoLaw | base/PathHandle.cc:74-95 | the same law for the loop started with any components already collected |
| Paths.ClimbIsLowestPoint | base/PathHandle.cc:85-91 | how far a path climbs is its greatest excess of ".." over names in any prefix |
| Paths.CollapseAbsorbs | base/PathHandle.cc:69-97 | collapsing is idempotent and may be done early on the left |
| Paths.CanonDotDot | memory/MemMount.cc:182-184 | appending "/.." drops exactly the last canonical component |
| Paths.CanonIsCanonical | base/PathHandle.cc:69-97 | a collapsed path has no empty, "." or ".." component |
| Paths.ResolutionsAgreeIff | base/KernelProxy.cc:145-160 | collapsing before and after joining agree if and only if the path never climbs above its start or the working directory is the root |
| Paths.JoinFirstMeaning | base/KernelProxy.cc:32-39 | joining first resolves an absolute path to its collapsed path, and a relative one to the working directory without as many components as the path climbs, then the collapsed path |
| Paths.CollapseFirstMeaning | base/KernelProxy.cc:145-160 | collapsing first resolves below the working directory, never above it |
| Paths.ResolutionsDiffer | base/KernelProxy.cc:153-160 | from /a, "../b" is /a/b for open and /b for chdir |
| PathHandles.PathHandle.constructor | base/PathHandle.cc:9-13 | parses and collapses a string |
| PathHandles.PathHandle.Split | base/PathHandle.cc:99-119 | the scanning loop computes the split of the specification |
| PathHandles.PathHandle.Find | base/PathHandle.cc:106 | the next separator, or -1 exactly if there is none |
| PathHandles.PathHandle.PathCollapse | base/PathHandle.cc:69-97 | the loop over a stack of names is the recursive collapse |
| PathHandles.PathHandle.FormulateRawPath | base/PathHandle.cc:15-24 | appending slashes and cutting the last one off prints the path |
| PathHandles.PathHandle.FormulatePath | base/PathHandle.cc:26-29 | prints the collapsed path and leaves the handle collapsed |
| PathHandles.PathHandle.SetPath | base/PathHandle.cc:37-43 | replaces the components without collapsing them |
| PathHandles.PathHandle.AppendPath | base/PathHandle.cc:121-123 | adds the components of a string at the end |
| PathHandles.PathHandle.MergePaths | base/PathHandle.cc:45-51 | concatenates two component lists |
| Slots.Fresh | base/SlotAllocator.h:28-38 | the next index is the largest free one, or the size if none is free |
| Slots.Put | base/SlotAllocator.h:28-38 | an allocation makes one dead index live, keeps all others, and grows the table by at most one |
| Slots.SizeIsPeak | base/SlotAllocator.h:28-48 | over any run the table size is the peak number of simultaneously live slots |
| SlotAllocators.SlotAllocator.Alloc | base/SlotAllocator.h:28-38 | returns the largest free index, never a live one, and keeps the heap equal to the set of free indices |
| SlotAllocators.SlotAllocator.Free | base/SlotAllocator.h:40-48 | empties the slot, keeps the heap exact, and a double free changes nothing |
| SlotAllocators.SlotAllocator.At | base/SlotAllocator.h:49-54 | the object of a live slot and nothing for any other number |
| SlotAllocators.PushHeap | base/SlotAllocator.h:46-47 | restores max-heap order and keeps the multiset of indices |
| SlotAllocators.PopHeap | base/SlotAllocator.h:33-35 | moves the maximum to the end, leaves a heap before it, and keeps the multiset |
| SlotAllocators.HeapTop | base/SlotAllocator.h:33 | the front of a heap is its maximum |
| SlotAllocators.TopIsFresh | base/SlotAllocator.h:33-37 | if the heap holds exactly the free indices, its front is the largest of them |
| Mounts.RouteIsLongest | base/MountManager.cc:102-135 | GetMount returns the mount of the unique longest key that is a prefix of the path, and key plus remainder is the path |
| Mounts.RouteOrNothing | base/MountManager.cc:113-126 | there is a route exactly if some non-empty key is a prefix, and otherwise path and no mount come back |
| Mounts.MountThenUnmount | base/MountManager.cc:39-63 | AddMount succeeds exactly on a new non-empty key, routes it, and RemoveMount of it restores the table and every route |
| Mounts.MountingKeepsNulls | base/MountManager.cc:43-45 | the only key ever bound to no mount is the empty one, which routes nothing |
| Mounts.RoutesAgreeIff | base/MountManager.cc:113-134 | for a canonical path and any keys, GetMount returns the mount and remainder of component-wise routing if and only if the winning key ends at the end of a component, or is a directory of the path plus a slash, with the directory a key for the same mount |
| Mounts.CanonicalRoutesAgreeIff | base/MountManager.cc:113-134 | if the winning key is a printed canonical path, mount and remainder agree if and only if it ends at the end of a component |
| Mounts.PrefixEnds | base/MountManager.cc:117 | a string prefix of a joined path ends with a component, or at a place inside or just before one, and what is left is then the rest of that component and those behind it |
| Mounts.LongestIsDeepest | base/MountManager.cc:115-122 | if the longest matching key is a prefix of components, no deeper prefix is a key |
| Mounts.RoutingSplitsComponents | base/MountManager.cc:117 | with mounts at "/" and "/mn", the path "/mnt/x" goes to "/mn" with remainder "t/x" |
| Mounts.OpenAndStatRoutesAgree | base/KernelProxy.cc:162-182 | for any keys, routing the parent and adding the last name reaches the mount and components of routing the path if and only if the winning key is not longer than the parent, or is the parent and a slash for the mount whose root the parent is |
| Mounts.ComponentPrefix | base/MountManager.cc:128-134 | a printed prefix of components is a string prefix, and the remainder names the other components |
| MountManagers.MountManager.GetMount | base/MountManager.cc:102-135 | the loop finds the longest key whatever the order of iteration |
| MountManagers.MountManager.AddMount | base/MountManager.cc:39-48 | 0 exactly for a mount and a new non-empty key, which is then bound; -2 without a mount, -1 for a key in use, -3 for a missing or empty path; a failure changes at most the empty key |
| MountManagers.MountManager.RemoveMount | base/MountManager.cc:50-63 | unbinds the key, with -1 if there was none, and forgets the working mount if it was that one |
| MountManagers.MountManager.ClearMounts | base/MountManager.cc:65-68 | no keys and no working mount |
| MountManagers.MountManager.constructor | base/MountManager.cc:29-37 | the default mount is at "/" |
| MemNodes.MemNode.AddChild | memory/MemNode.cc:58-63 | appends for directories only |
| MemNodes.MemNode.RemoveChild | memory/MemNode.cc:65-70 | removes every occurrence for directories only |
| MemNodes.MemNode.ReallocData | memory/MemNode.cc:72-78 | a larger buffer with the same content |
| MemNodes.MemNode.CopyIn | memory/MemMount.cc:356-361 | copying into the buffer and raising the length is a splice |
| MemMounts.MemMount.constructor | memory/MemMount.cc:13-20 | slot 0 is an empty directory |
| MemMounts.MemMount.GetSlot | memory/MemMount.cc:131-176 | walks the child lists without following a dangling slot and finds the slot or -1 |
| MemMounts.MemMount.GetParentSlot | memory/MemMount.cc:182-184 | finds the slot of the parent or -1 |
| MemMounts.MemMount.GetNode | memory/MemMount.cc:107-117 | number, kind and size of the node at a path |
| MemMounts.MemMount.Creat | memory/MemMount.cc:22-66 | new table and result, with the invariant kept and the flat map extended as the reference does |
| MemMounts.MemMount.Mkdir | memory/MemMount.cc:68-105 | new table and result, with the invariant kept and the flat map extended as the reference does |
| MemMounts.MemMount.Unlink | memory/MemMount.cc:204-224 | new table and result for any path, with the invariant kept and exactly one path unbound on success |
| MemMounts.MemMount.Rmdir | memory/MemMount.cc:226-248 | new table and result for any slot, the directory's path unbound on success, and the invariant kept if and only if it was neither the root nor held |
| MemMounts.MemMount.Ref | memory/MemMount.cc:250-256 | one more reference on a live node |
| MemMounts.MemMount.Unref | memory/MemMount.cc:258-274 | one reference less, and the slot freed at the last; the invariant is kept if and only if the reference was held or the node counts none |
| MemMounts.MemMount.Getdents | memory/MemMount.cc:276-315 | the records of the first children, as many as whole records fit |
| MemMounts.MemMount.Read | memory/MemMount.cc:317-332 | the slice of the content, cut at the end of the file |
| MemMounts.MemMount.Write | memory/MemMount.cc:334-363 | grows the buffer if needed and splices, with the tree untouched |
| KernelProxies.KernelProxy.Syscall | base/KernelProxy.cc:24-467 | any legal call takes the proxy object from one reference world to the next with the reference's reply, and keeps every object invariant |
| KernelProxies.KernelProxy.constructor | base/KernelProxy.cc:9-14 | the proxy over an empty mount at "/" stands for the empty world |
| KernelProxies.KernelProxy.ChDir | base/KernelProxy.cc:24-60 | joins, collapses, looks up and changes the directory |
| KernelProxies.KernelProxy.MkDir | base/KernelProxy.cc:439-458 | joins, collapses, routes and asks the mount |
| KernelProxies.KernelProxy.RmDir | base/KernelProxy.cc:460-467 | finds the node and asks the mount |
| KernelProxies.KernelProxy.Remove | base/KernelProxy.cc:352-372 | routes, and unlinks a file or removes a directory |
| KernelProxies.KernelProxy.StatPath | base/KernelProxy.cc:374-381 | finds the node and describes it |
| KernelProxies.KernelProxy.Access | base/KernelProxy.cc:383-437 | builds the prefixes, asks stat about each and compares the mode bits |
| KernelProxies.KernelProxy.Open | base/KernelProxy.cc:145-183 | collapses, joins, routes the parent and opens below it |
| KernelProxies.KernelProxy.OpenHandle | base/KernelProxy.cc:101-143 | creates or finds the node, references it, and sets up handle and descriptor |
| KernelProxies.KernelProxy.Close | base/KernelProxy.cc:185-207 | frees descriptor and handle and gives the reference back |
| KernelProxies.KernelProxy.Read | base/KernelProxy.cc:209-229 | reads at the offset of the handle and moves it |
| KernelProxies.KernelProxy.Write | base/KernelProxy.cc:231-253 | writes at the offset of the handle and moves it |
| KernelProxies.KernelProxy.LSeek | base/KernelProxy.cc:296-341 | moves the offset of the handle or refuses |
| KernelProxies.KernelProxy.FStat | base/KernelProxy.cc:255-265 | describes the node of the handle |
| KernelProxies.KernelProxy.GetNode | base/MountManager.cc:70-100 | routes an absolute path and asks the mount |
| Runners.RunnerIsSafe | base/MainThreadRunner.cc:25-71 | over any interleaving: no entry is used after its owner returned, posted is a prefix of started and started of pushed, every pushed entry is in exactly one of posted, finishing, in flight and queued, a returned client has its own result, an unposted entry's owner still waits, and between callbacks there is exactly one timer or one job in flight |
| Runners.StepKeepsInv | base/MainThreadRunner.cc:25-71 | every step of any thread keeps the protocol invariant |
| Runners.RunKeepsInv | base/MainThreadRunner.cc:25-71 | every run keeps it |
| Runners.EventuallyPosted | base/MainThreadRunner.cc:44-71 | an entry is posted after a number of main-thread steps known when it is pushed, whatever the clients do |
| Runners.StepsBringNearer | base/MainThreadRunner.cc:44-71 | each main-thread step brings every waiting entry nearer, client steps never set it back, and only its own post ends its wait |
| Runners.MainThreadCanStep | base/MainThreadRunner.cc:57-71 | the main thread always has a next step |
| Runners.LostJobStopsEverything | base/MainThreadRunner.cc:44-71 | if the job in flight never completes, nothing is ever posted again |
| Runners.WakeKeepsInv | base/MainThreadRunner.cc:39-41 | a client is only woken for a posted entry |
| Runners.DoWorkKeeps | base/MainThreadRunner.cc:57-71 | DoWork makes exactly one new driver and keeps the order of the entries |
| MainThreadRunners.MainThreadRunner.constructor | base/MainThreadRunner.cc:16-20 | the runner starts with one timer pending |
| MainThreadRunners.MainThreadRunner.Push | base/MainThreadRunner.cc:25-37 | the first half of RunJob appends the entry |
| MainThreadRunners.MainThreadRunner.Return | base/MainThreadRunner.cc:39-41 | the second half of RunJob returns the result given for this entry |
| MainThreadRunners.MainThreadRunner.DoWork | base/MainThreadRunner.cc:57-71 | starts the first job or asks to be called again |
| MainThreadRunners.MainThreadRunner.DoWorkShim | base/MainThreadRunner.cc:52-55 | the timer step |
| MainThreadRunners.MainThreadRunner.PostDone | base/MainThreadRunner.cc:49 | the last step of StuffResult: the owner is signalled and the entry is given up |
| MainThreadRunners.MainThreadRunner.StuffResult | base/MainThreadRunner.cc:44-50 | store, work on, post: three steps of the protocol that leave the entry posted and the main thread idle |
| Transfers.ReturnedMeansTransferred | base/MainThreadRunner.cc:25-50 | over any interleaving with posts as jobs, a client that has returned was served by a transfer that was opened and has ended, has all received bytes in order, and got the result 1 |
| Transfers.StuckPostStopsEverything | AppEngine/AppEngineUrlLoader.cc:46-68 | if the post in flight could not be opened, or its callbacks never come to an end, the main thread does nothing more and nobody is served |
| Transfers.ReportsIff | AppEngine/AppEngineUrlLoader.cc:46-68 | a post reports a result exactly if it is 1, the request was opened and the callbacks have ended |
| AppEnginePosts.JobOutcome | AppEngine/AppEngineUrlLoader.cc:53-77 | after an open request, the collected bytes are the received ones in order, and the job has reported, once and with 1, exactly if the callbacks end with an error or a second zero |
| AppEnginePosts.PossibleIff | AppEngine/AppEngineUrlLoader.cc:53-77 | a callback can come exactly as long as no earlier one ended the job |
| AppEnginePosts.FailedOpenNeverReports | AppEngine/AppEngineUrlLoader.cc:46-51 | after a failed open nothing is called back and nothing is reported |
| AppEnginePosts.AppEnginePost.constructor | AppEngine/AppEngineUrlLoader.h:31-37 | waiting for the request to be opened |
| AppEnginePosts.AppEnginePost.OnOpen | AppEngine/AppEngineUrlLoader.cc:46-51 | reads on, or is abandoned |
| AppEnginePosts.AppEnginePost.OnRead | AppEngine/AppEngineUrlLoader.cc:53-68 | appends bytes, passes the headers, or reports |
| AppEnginePosts.AppEnginePost.ReadMore | AppEngine/AppEngineUrlLoader.cc:70-77 | one more callback is owed |
| AppEnginePosts.AppEnginePost.ProcessBytes | AppEngine/AppEngineUrlLoader.cc:85-90 | the bytes of the buffer are appended |

## Left out

- KernelProxies.KernelProxy.Open: a path that collapses to the root is excluded, because `Last()` of an empty list is undefined there (base/PathHandle.h:51); a relative path that collapses to nothing gives EINVAL as in the code.
- KernelProxies.KernelProxy.Syscall: the mount table does not change during a run, since no system call mounts; calls are one at a time, as the proxy has no lock.
- Theorems.RunConsistent: which calls are defined is said for consistent tables; once a run has removed a root or an open directory, walks can follow a dead slot, and nothing is claimed about what comes after.
- KernelProxies.KernelProxy.RmDir: the object excludes the removal of a mount's root or of a directory with a handle, after which its invariant is lost; what the tables look like then is said by `Kernels.RmDirK` and `Theorems.RmDirConsistentIff`.
- KernelProxies.KernelProxy.Remove: the same exclusion for directories, see `Theorems.RemoveConsistentIff`.
- MemMounts.MemMount.Rmdir: the code returns ENOENT as a positive number for a dead slot; the model gives it as the error it means. The proxy never asks for a dead slot.
- MemMounts.MemMount.Creat: the empty path, for which the walk to the parent succeeds and `Last()` is undefined.
- MemMounts.MemMount.Mkdir: the empty path, for the same reason.
- MemMounts.MemMount.Read: offsets beyond the length, where the length computation wraps around (memory/MemMount.cc:325).
- MemMounts.MemMount.Write: offsets beyond the length, where the padding starts at the capacity and leaves the buffer (memory/MemMount.cc:353-354); `Offsets.OffsetsStayInBounds` says which calls lead there.
- MemMounts.MemMount.Getdents: the 16 bits of the record length; the call in the kernel proxy only passes it on.
- MainThreadRunners.MainThreadRunner.PostDone: posting the semaphore is one step. In the code the owner may already return and destroy the semaphore while `sem_post` is still about to return; no field of the entry is used after that.
- SlotAllocators.SlotAllocator.Free: an index outside the vector, which the code does not check.
- SlotAllocators.PushHeap: push_heap and pop_heap are the standard library's; the textbook sifting stands for them.
- AppEnginePosts.AppEnginePost.ReadMore: the loader answers later; an answer at once would call `DoWork` under its own lock.
- Integer widths, allocation failure and the uninitialised tail of a grown buffer: lengths and offsets are unbounded, and only bytes below the length are modelled.
- errno where the code leaves it to a callee and overwrites it later; permission, owner, time and block fields of `stat`.
- Flags are reduced to access mode, O_APPEND and "any other bit", which is all the code distinguishes.
- The runner's constructor calls `DoWork` before it initialises the lock; the model starts with the timer pending.
- The destructor call that a comment in `RemoveMount` mentions does not happen for pointers; ownership of mounts is not modelled.
- URL requests, multipart bodies, the remote mounts and nodes, the server, `MainThreadJobOpen`, and the C entry points: foreign calls or forwarding.
- link, symlink, ioctl, chmod, utime, isatty, fsync, getcwd: stubs or printing only.
