# CuteSugarOS: a verified model of the kernel's core

CuteSugarOS is a small x86-64 kernel.  These modules model its memory management, its task ring and
context switch, its allocator, its executable loader and its object namespace with PCI enumeration, and
prove what each promises over all inputs and all runs.

- **Paging.**  `PageEntry` is the bit layer.  `PageTable` has the tables in physical memory, the walks as
  recursive functions of a path of indices, and the frame-ownership invariant.  `AddressSpace` and
  `AddressSpaceRuns` run maps, unmaps, root copies, frame allocation and release in any order, and prove
  that the shared tables implement a flat model: each top-level slot refers to an owning root, and pages
  are keyed by owner and path.  `Mmu` is the memory manager with its routines as methods on `memory`,
  `mem_list` and `stack_position`, each equal to the functions above.  `AccessRights`, `AccessRightsRuns` and
  `KernelRights` follow the flags that a walk passes through every operation and run, and so which pages programs
  may touch.  `Boot` and `BootState` fill the
  static tables and the frame stack, and prove that the first state satisfies the invariant.
  `KernelHalf` proves that every root keeps the kernel's half, and `HeapFrames` that the pages of the heap are
  what the allocator needs.
- **Loader.**  `ElfFormat` has the headers of a file with a writer for them; `ElfLoader` maps, copies and reads back through the page tables of `AddressSpace`.
- **Tasks.**  `ContextSwitch` has the assembly as steps on registers and an 8-byte word memory;
  `ContextSwitchRuns` has arbitrary runs from boot of work, entries from user mode, returns, switches and
  creations over any number of tasks, and `ContextResumes` what each task finds when it goes on.  `KernelTasks`
  has the routines that take these steps, and `TaskHistories` two histories of theirs.  `Stacks` takes structures
  and stacks from the allocator, and `Rounds` puts the runs and the ring together.
  `TaskRing` has the linked ring and token list and their abstract ring, with fairness over runs.
  `Spinlock` interleaves atomic steps of any number of processors.
- **Allocator.**  `Malloc` has the bins, the free lists threaded through the blocks, and the large blocks.
- **Names and devices.**  `CString`, `Serial`, `ObjectDirectory` with its laws in `NameLaws`, `Pci`
  and `PciBus`.
- `Prelude` holds stock definitions.

Points where the code does something a reader might not expect; the model follows the code:

- The mapping loop of the loader counts from the segment's address in whole pages up to the file size, so
  a segment whose offset in its first page and size spill over one more page faults in the copy.
  `ElfLoader.Coverage` gives the exact condition.
- The first task created is the boot code itself: it becomes current while the boot code runs on, the first
  switch away stores the boot stack pointer over the pointer to the hand-built stack, and that stack is never
  used.  A created task starts at its entry point if and only if a task existed at its creation
  (`ContextResumes.FirstResume`); the kernel's only creation, with entry point 0, is the first
  (kernel/arch/main.c:61), and `TaskHistories.FirstTaskResumed` is a concrete history.
- Tasks share one kernel stack.  `tss.rsp0` is set once, to an address in the boot stack (kernel/arch/gdt.c:52-53),
  and no gate has a stack of its own (kernel/arch/idt.c:94-103), so every entry from user mode, of whatever task,
  starts at the same address and writes over what an earlier one left there.  A task switched out there finds its
  context again if nobody ran on that stack in between (`ContextResumes.ResumeFindsContext`); at equal depth it
  otherwise goes on with the context of the last task switched out there (`ContextResumes.EntryStackIsShared`).
  `TaskHistories.ParentResumesAsClone` is a history in which a parent goes on as its clone.
- The user stack of a clone is written from the end of the block that was asked for; it stays in the pages taken
  for the block if three of them are contiguous (`Stacks.CopyIsUnowned`).
- A large block is only as large as the contiguous part of its pages; `Malloc.LargeFits` gives the exact
  condition and `Malloc.LargeNeedNotFit` a failing request.
- `ChangeWorkingDirectory` accepts any object, also one that is no directory.
- `find_process` has no end for an id that is absent from a ring of two or more tasks.
- The loader takes a frame for every page before it asks whether the page is mapped.
- Creating a task at the end of the ring delays exactly the tasks that the scheduler reaches across the
  link from the last to the first (`TaskRing.DistanceStep`).
- The resolver starts at the current task's working directory when the caller has no access to the root,
  also for names that begin with "."; "." alone looks for a child with an empty name.
- A component of exactly 32 characters resolves in the middle of a path but fails at its end.
- Programs may read and write the direct map of physical memory, in which their own heap and stacks lie
  (`KernelRights.DirectMapRights`), but not the kernel image (`KernelRights.KernelImageRights`).
- A leaf takes the low bits of its physical address into its flags, so only an aligned address gives exactly the
  rights asked for (`PageEntry.EntryCarries`).
- The bus behind a bridge is read from the high byte of the word at 0x1C (kernel/misc/pci.c:64-65), not at 0x18.
- The branch that walks behind a bridge found at function 1 to 7 is dead, because the type of every function
  of a slot is read from function 0.
- The tables of 1024 entries fill two pages each; only the first is ever used as a table.
- The large-block branch that would reuse a block is never taken without `free`.

Assumptions, stated as preconditions or kept in the invariants: a frame is available at every allocation;
usable regions are page aligned, disjoint and fit `mem_list`; the direct-map offset shares no bit with the
address of any frame of memory, and the kernel root's own address is not a direct-map pointer; there are
no large pages; list nodes whose `next` field the code never sets hold null there; the static tables start
zeroed and the boot loader maps them at distinct aligned frames; ids stay below the largest int; buffers
that the code sizes for its callers are large enough; programs write the kernel's memory only where
`switch_to_user` leaves the first one on the boot stack.

## Model

| member | source | states |
|---|---|---|
| PageEntry.EntryRoundTrip | kernel/arch/mmu.c:99-112 | an entry made of an aligned frame address and any present flag set is present and, masked as a table pointer or as a leaf, leads back to that frame |
| PageEntry.LeafRoundTrip | kernel/arch/mmu.c:158-159 | a leaf made of any physical address reads back as that address without its offset bits and bit 63, whatever the flags |
| PageEntry.DirectMapRoundTrip | kernel/arch/mmu.c:31-43 | an address that shares no bit with the direct-map offset gives the same pointer by addition and by OR, and the pointer leads back to it |
| PageEntry.UnmapPointer | kernel/arch/mmu.c:172-177 | unmap ORs the direct-map offset into the entry before it masks it, and still follows the same pointer as the other walks |
| PageEntry.PageIsNoErrorCode | kernel/arch/mmu.c:31-43 | a translated address is never one of the four 64-bit error codes |
| PageEntry.PathIsPageNumber | kernel/arch/mmu.c:26-29 | two virtual addresses take the same four table indices exactly when their bits 12..47 agree |
| PageTable.LinkKeepsInv | kernel/arch/mmu.c:129-133 | taking a frame, clearing it and entering it in an empty slot of a live table keeps frame ownership |
| PageTable.MapKeepsInv | kernel/arch/mmu.c:118-159 | mapping keeps frame ownership, takes exactly the frames for the missing levels, and leaves every data frame and every table not below the root alone |
| PageTable.MapBelowRoot | kernel/arch/mmu.c:127-159 | what a mapping does to the walks from every table of the same level below the roots, by where the paths part |
| PageTable.MapEffect | kernel/arch/mmu.c:118-159 | after mapping through one root, every walk from every root: roots that share the slot see the new page and the new levels, no other walk changes |
| PageTable.UnmapKeepsInv | kernel/arch/mmu.c:161-193 | unmapping keeps frame ownership, takes no frame and changes no use of a frame |
| PageTable.UnmapEffect | kernel/arch/mmu.c:161-193 | after unmapping through one root, every walk from every root: only the unmapped path goes, and only for the root and those sharing its slot |
| PageTable.OneParent | kernel/arch/mmu.c:129-153 | below the roots a table has one parent table and one index in it |
| PageTable.NextIsUnused | kernel/arch/mmu.c:59-61 | the frame handed out next is in memory and used for nothing |
| AddressSpace.ForkEffect | kernel/arch/mmu.c:195-201 | a new root translates like its source below slot 256 and like the kernel root from there on, and the old roots translate as before |
| AddressSpace.ForkKeepsInv | kernel/arch/mmu.c:195-201 | copying a root keeps frame ownership although its subtrees become shared |
| AddressSpace.TakeKeepsInv | kernel/arch/mmu.c:59-61 | taking a frame for data keeps frame ownership |
| AddressSpace.ReleaseKeepsInv | kernel/arch/mmu.c:63-68 | pushing a data frame back keeps frame ownership |
| AddressSpace.StepKeepsInv | kernel/arch/mmu.c:59-201 | every operation keeps frame ownership |
| AddressSpace.OwnerDecides | kernel/arch/mmu.c:195-201 | two filled slots hold the same table exactly when the same root owns both |
| AddressSpace.LookupRefines | kernel/arch/mmu.c:25-44 | walking the tables is a lookup in the flat model: slot to owner, then owner and path to page |
| AddressSpace.MapRefinesOwners | kernel/arch/mmu.c:118-159 | mapping changes the owners of slots as the flat insertion does |
| AddressSpace.MapRefinesPages | kernel/arch/mmu.c:118-159 | mapping changes the pages as the flat insertion does |
| AddressSpace.UnmapRefines | kernel/arch/mmu.c:161-193 | unmapping is the flat deletion |
| AddressSpace.ForkRefines | kernel/arch/mmu.c:195-201 | copying a root only copies slot owners in the flat model |
| AddressSpace.StepRefines | kernel/arch/mmu.c:59-201 | every operation on the tables is the flat operation |
| AddressSpace.RunRefines | kernel/arch/mmu.c:59-201 | over every run of operations the tables implement the flat model and frame ownership holds |
| AddressSpaceRuns.RunLookup | kernel/arch/mmu.c:25-44 | after every run, the lookup on any root is the lookup in the flat model run alongside |
| AddressSpaceRuns.MapInserts | kernel/arch/mmu.c:118-159 | mapping inserts only where the root had no page, for it and the roots sharing the slot, and changes no other page |
| AddressSpaceRuns.UnmapDeletes | kernel/arch/mmu.c:161-193 | unmapping deletes that page for the root and the roots sharing the slot, and changes no other page |
| AddressSpaceRuns.RunPartition | kernel/arch/mmu.c:46-72 | after every run memory consists of the same frames as at the start, each either free or used for exactly one thing |
| AddressSpaceRuns.SharedAtOneSlot | kernel/arch/mmu.c:195-201 | a table shared by two roots sits at the same slot index in both |
| AddressSpaceRuns.NextIsUnreached | kernel/arch/mmu.c:129-132 | no table entry leads to the frame handed out next, so clearing it destroys no live table |
| AddressSpaceRuns.RunKeepsSharing | kernel/arch/mmu.c:118-201 | roots that share a slot share it after every run and translate through it alike |
| AddressSpaceRuns.ForkSharesForever | kernel/arch/mmu.c:195-201 | slots present when a root was copied translate identically through copy and source after every later run through either |
| AddressSpaceRuns.ForkStaysApart | kernel/arch/mmu.c:195-201 | slots empty when a root was copied are never shared between copy and source, whatever follows |
| AddressSpaceRuns.StepCost | kernel/arch/mmu.c:118-193 | a mapping advances `stack_position` by the number of missing tables, an unmapping by nothing |
| AddressSpaceRuns.RunCost | kernel/arch/mmu.c:118-193 | a run of maps and unmaps on a root takes exactly one frame per distinct new prefix of the mapped paths at the top three levels |
| PageEntry.EntryCarries | kernel/arch/mmu.c:130-158 | an entry for a frame carries exactly its flags; a leaf also the low bits and bit 63 of its physical address |
| AccessRights.TrailOfWalk | kernel/arch/mmu.c:25-44 | a walk finds its page exactly if it passes an entry at every level |
| AccessRights.MapTrail | kernel/arch/mmu.c:118-159 | what a mapping does to the flags along every path from every root: entries that were there keep theirs, every missing one on the mapped path gets the given flags, for the root and those sharing its slot, and no other walk changes |
| AccessRights.UnmapTrail | kernel/arch/mmu.c:161-193 | an unmapping takes away the flags of the last entry of its path and of no other |
| AccessRights.ForkTrail | kernel/arch/mmu.c:195-201 | the walks of a new root pass the flags that those of its source, and of the kernel's root, pass |
| AccessRights.MapGivesRights | kernel/arch/mmu.c:118-159 | an absent page mapped at an aligned address gets every missing entry with exactly the given flags, and so their user and write rights within what the tables already there allow |
| AccessRights.RightsMeaning | kernel/arch/mmu.c:118-119 | a walk gives a right exactly if every entry on it does |
| AccessRightsRuns.StepTrailsRefine | kernel/arch/mmu.c:59-201 | every operation on the tables changes the flags along the walks as the flat model says |
| AccessRightsRuns.RunTrails | kernel/arch/mmu.c:59-201 | over every run the flags that all walks from all roots pass are those of the flat model run alongside |
| AccessRightsRuns.StepKeepsTrail | kernel/arch/mmu.c:59-201 | no operation changes the flags along a walk that finds its page, but for an unmapping of that page |
| AccessRightsRuns.MappedRightsStay | kernel/arch/mmu.c:118-159 | a page mapped for programs, or not, has exactly that right after every later run that does not unmap it |
| KernelRights.KernelImageTrail | kernel/arch/mmu.c:208-217 | start-up gives the kernel image four entries with write and without user right |
| KernelRights.DirectMapTrail | kernel/arch/mmu.c:219-230 | start-up gives the direct map four entries with both rights |
| KernelRights.KernelTrailEverywhere | kernel/arch/task.c:161 | a page of the kernel's half that is not unmapped has in every root, in every run, the flags it had in the static tables |
| KernelRights.KernelImageRights | kernel/arch/mmu.c:208-217 | through every root, at any time, programs have no right to the kernel image |
| KernelRights.DirectMapRights | kernel/arch/mmu.c:219-230 | through every root, at any time, programs may read and write the direct map below 4 GiB |
| Mmu.MemoryManager.AllocateFrame | kernel/arch/mmu.c:59-61 | returns the next frame of `mem_list` and advances `stack_position`, nothing else |
| Mmu.MemoryManager.NextTable | kernel/arch/mmu.c:127-135 | follows a present entry, or makes, clears and enters the missing table, with exactly the given flags |
| Mmu.MemoryManager.MapPage | kernel/arch/mmu.c:118-159 | the new state is the mapping function at the indices of the address; an absent page is then found at the given address, all missing entries have flags 7 or 3, and its rights are those of the old tables, cut to supervisor unless `user`; a null root changes nothing |
| Mmu.MemoryManager.MapMmio | kernel/arch/mmu.c:74-116 | the same on the kernel root: every missing entry has 0x1B, and programs have no right to the page |
| Mmu.MemoryManager.GetPhysicalAddress | kernel/arch/mmu.c:25-44 | returns the page the walk finds, or the code of the level at which it misses |
| Mmu.MemoryManager.UnmapPage | kernel/arch/mmu.c:161-193 | the new state is the unmapping function, and the code 0, -1..-4 is that of the walk; -5 for a null root |
| Mmu.MemoryManager.NewPageStructure | kernel/arch/mmu.c:195-201 | the new root is the next frame, with the source's lower and the kernel's upper half |
| Mmu.CodesAgree | kernel/arch/mmu.c:31-41 | the lookup's code for a miss at level l is -l in 64 bits, agrees with the unmapping's, and is no page |
| Mmu.MemoryManager.ExpandHeap | kernel/arch/mmu.c:70-72 | takes one data frame and returns its direct-map pointer |
| Mmu.MemoryManager.DeallocateFrame | kernel/arch/mmu.c:63-68 | rejects unaligned addresses and an empty stack with -1, else pushes any page-aligned address; ownership is kept if it is a data frame in use |
| Boot.StaticTables.KernelInitializePaging | kernel/arch/mmu.c:203-230 | every entry of every static table after the nested fill loops |
| Boot.StaticTables.constructor | kernel/arch/mmu.c:12-20 | the tables as the kernel image brings them, the sparse ones cleared |
| Boot.OverlaidInstalled | kernel/arch/mmu.c:203-230 | over any physical memory there is one that holds the filled tables at their frames |
| Boot.StartPaging | kernel/arch/mmu.c:203-230 | from the cleared tables on: whatever memory holds the filled tables translates as Translation says, and there is one over any other contents |
| Boot.Translation | kernel/arch/mmu.c:203-230 | how every virtual address translates through the static tables, and which do not translate at all |
| Boot.DirectMapIsIdentity | kernel/arch/mmu.c:219-230 | with the direct-map base at the start of slot 256, every address below 4 GiB translates to its own page |
| Boot.DirectMapNeedsWholeSlot | kernel/arch/mmu.c:219-230 | for a page-aligned base in slot 256 that holds if and only if the base is the very start of the slot |
| Boot.KernelImageIsMapped | kernel/arch/mmu.c:208-217 | every address of the first GiB above 0xffffffff80000000 translates to the kernel's physical base plus its page offset |
| BootState.KernelInitializeMemStack | kernel/arch/mmu.c:46-57 | `mem_list` holds the pages of the usable regions in order, and nothing else of it changes |
| BootState.PushedIsUsable | kernel/arch/mmu.c:51-55 | an address is pushed exactly if it is a page of a usable region |
| BootState.PushedOnce | kernel/arch/mmu.c:51-55 | disjoint regions push no page twice |
| BootState.FirstStateInv | kernel/arch/mmu.c:203-236 | the state after start-up satisfies frame ownership, so the runs above start from it |
| BootState.RunsFromStart | kernel/arch/mmu.c:25-236 | after every legal run that follows start-up, frame ownership holds, each pushed frame is free or used for exactly one thing, and every lookup agrees with the flat model |
| BootState.HeldIsInstalled | kernel/arch/mmu.c:203-230 | a memory that holds the filled arrays is one whose walks the translation results are about |
| BootState.StartMemory | kernel/arch/mmu.c:203-236 | over a memory that holds the filled tables the memory manager is valid after start-up, with the pushed frames all free |
| HeapFrames.DataStays | kernel/arch/mmu.c:59-72 | a frame taken for data stays data and is not handed out again, in any run without a release |
| HeapFrames.TakenFrames | kernel/arch/mmu.c:59-72 | the frames taken over such a run are aligned, distinct, and data at its end, so never page tables |
| HeapFrames.HeapPagesOk | kernel/arch/mmu.c:70-72 | the pointers of such a run satisfy what the allocator assumes of its pages |
| KernelHalf.KernelHalfShared | kernel/arch/task.c:161 | after start-up, in every run every root shares the kernel root's tables in slots 256 and 511 and translates like it there |
| KernelHalf.PageStays | kernel/arch/mmu.c:118-201 | a page that no step unmaps keeps its translation over every run |
| KernelHalf.DirectMapEverywhere | kernel/arch/task.c:161 | through every root, at any time, the direct map reaches each page below 4 GiB that was not unmapped |
| KernelHalf.KernelImageEverywhere | kernel/arch/task.c:161 | through every root, at any time, the kernel image is where start-up mapped it unless unmapped |
| ElfFormat.ReadsBack | kernel/misc/elf.c:12-43 | reading a little-endian field gives back the number written there |
| ElfFormat.ReadsDescription | kernel/misc/elf.c:12-43 | for any file that starts with the encoding of a header and has the encodings of its program headers where that says, the loader reads the described entry point, count and segments |
| ElfFormat.HasDescription | kernel/misc/elf.c:12-43 | every file with the magic number and room for its program headers is such a file |
| ElfFormat.BuildDescribes | kernel/misc/elf.c:12-43 | so is a file built of header, program headers and contents |
| ElfLoader.PathOfPageInjective | kernel/arch/mmu.c:119-122 | different page numbers have different table paths |
| ElfLoader.PathsAgree | kernel/arch/mmu.c:119-122 | the page number of a 64-bit address is cut into the same four indices as the address |
| ElfLoader.SplitSegmentFaults | kernel/misc/elf.c:171-173 | two bytes at 0x1FFF: the loop reaches the page of the first and not of the second |
| ElfLoader.SplitFileFaults | kernel/misc/elf.c:170-176 | a file whose only segment is that one cannot be loaded |
| ElfLoader.Coverage | kernel/misc/elf.c:171-173 | the mapping loop covers every file byte if and only if (address mod 4096) + (file size mod 4096) <= 4096 |
| ElfLoader.MapFreshEffect | kernel/misc/elf.c:172 | one turn of the mapping loop: a fresh data frame appears at that page if it was absent, no other page changes |
| ElfLoader.Loader.constructor | kernel/misc/elf.c:157-163 | any address space with ownership and a root in it can be loaded into |
| ElfLoader.Loader.MapSegment | kernel/misc/elf.c:171-173 | afterwards a page is mapped exactly if it was before or the loop reaches it; old pages stay, new ones are private frames |
| ElfLoader.Loader.CopySegment | kernel/misc/elf.c:174 | the copy succeeds exactly if every byte has a page, then reads back whole and spoils no earlier segment |
| ElfLoader.Loader.LoadSegment | kernel/misc/elf.c:170-176 | after segment k the first k+1 segments read back, or some byte of segment k had no page |
| ElfLoader.Loader.Load | kernel/misc/elf.c:157-179 | the load ends with the entry point exactly if every byte of every segment is reached in turn, and then each byte reads back through the tables as the file's byte, with every right that the tables on the way allow |
| ElfLoader.MapFreshRights | kernel/misc/elf.c:172 | one turn of the mapping loop gives programs every right that the tables on the way allow, and takes none away |
| ElfLoader.Loader.LoadImage | kernel/misc/elf.c:157-179 | for a file of which it is known what was written into it: the load ends with the described entry point exactly if each byte's page was reached in turn, and then each byte of each described segment is read at its described address |
| ElfLoader.WhenAllReached | kernel/misc/elf.c:170-176 | segments that fit the loop never fault, and with one segment fitting is also necessary |
| ContextSwitch.Processor.SaveTask | kernel/arch/irq.s:134-141 | the six pushes and the store of the stack pointer into the old task's structure |
| ContextSwitch.Processor.RestoreTask | kernel/arch/irq.s:148-155 | the six pops and the return read exactly the seven words of a switch frame |
| ContextSwitch.Processor.SwitchTask | kernel/arch/irq.s:133-155 | from entry to return: the old task's frame is saved, the context comes from the new task's frame, the lock is free and interrupts are on |
| ContextSwitch.Processor.ResumeUser | kernel/arch/irq.s:173-194 | fifteen registers, then the interrupt frame behind two skipped words, with gs swapped |
| ContextSwitch.Processor.BuildKernelStack | kernel/arch/task.c:38-46 | the hand-built stack is a switch frame with the entry point as return address and zero registers; whether it is ever popped is stated by FirstResume |
| ContextSwitch.Processor.BuildCloneStack | kernel/arch/task.c:112-149 | the hand-built stack is a switch frame into `resume_user` below zero registers and a user-mode interrupt frame with the new stack |
| ContextSwitch.Processor.Interrupt | kernel/arch/gdt.c:51-53 | an interrupt starts at the one address of the task state segment if and only if user mode was interrupted |
| ContextSwitch.Processor.EnterKernel | kernel/arch/irq.s:81-104 | from the interrupted instruction to the call of the C handler: the trap and the fifteen registers lie in the 176 bytes below the start, and nothing else changes |
| ContextSwitch.Processor.LeaveKernel | kernel/arch/irq.s:106-127 | the way back reads registers, entry point, segments, flags and stack from where an entry put them, and swaps gs exactly if the saved code segment is not the kernel's |
| ContextSwitch.Processor.EnterSystemCall | kernel/arch/irq.s:196-221 | a system call enters likewise, with gs swapped in any case and both extra words zero |
| ContextSwitch.Processor.ServeInterrupt | kernel/arch/irq.s:81-127 | an interrupt in user mode from entry to return restores all registers, the instruction and stack pointers, the segments, the flags and gs, whatever the handler leaves elsewhere |
| ContextSwitch.Processor.ServeSystemCall | kernel/arch/irq.s:196-241 | a system call restores the same but for rax, which is the handler's answer |
| ContextSwitch.Processor.SwitchToUser | kernel/arch/irq.s:157-171 | user mode is entered at the given address with code segment 27 on the running stack, of which 40 bytes below are written |
| ContextSwitch.Processor.CopyWords | libc/string/memcpy.c:3-6 | afterwards the words at the target are those of the source before, and no other word changed |
| ContextSwitchRuns.RunLocates | kernel/arch/task.c:28-163 | in every run each task but the running one has a saved stack pointer to a frame's place on the stack it was switched out on |
| ContextSwitchRuns.SwitchSaves | kernel/arch/irq.s:133-141 | a switch leaves the context the task gives up in the frame at its stack pointer, unless the next task's code reaches that place |
| ContextSwitchRuns.SwitchResumes | kernel/arch/irq.s:143-155 | switching to a task whose frame is intact and out of the running code's reach gives it that context, with the lock free |
| ContextSwitchRuns.SwitchConfuses | kernel/arch/irq.s:133-155 | switching to a task whose frame lies where the running code saves its own gives that task the running code's context |
| ContextSwitchRuns.Untouched | kernel/arch/irq.s:81-171 | a word of some task that the running code reaches neither before nor after a step stays as it is, over every kind of step |
| ContextSwitchRuns.StaysOut | kernel/arch/task.c:155-163 | until something switches to it, a task keeps its saved pointer and, unless it is the boot code, all of its own stack |
| ContextSwitchRuns.FrameStays | kernel/arch/task.c:155-163 | over any part of a run a frame that is not reached stays |
| ContextResumes.FrameInReach | kernel/arch/gdt.c:51-53 | a frame below the common entry address is out of the running code's reach if and only if that code neither entered from user mode nor is the boot code's |
| ContextResumes.ResumesLast | kernel/arch/irq.s:133-155 | in every run a task goes on with the context of whoever last saved a frame at the place of its own |
| ContextResumes.ResumeFindsContext | kernel/arch/irq.s:133-155 | in every run from boot a task switched out and later resumed finds the callee-saved registers, stack pointer and return address it had, if its frame lay outside the common entry stack, or if nobody ran on that stack in between |
| ContextResumes.EntryStackIsShared | kernel/arch/gdt.c:51-53 | a task switched out on the common entry stack otherwise goes on with the context of the last task switched out there at the same depth, and finds its own if and only if the two are equal |
| ContextResumes.FirstRunStartsAtEntry | kernel/arch/task.c:52-77 | in every run a task created when another existed starts at its entry point on its empty stack |
| ContextResumes.CloneStarts | kernel/arch/task.c:112-149 | in every run a cloned task first returns into `resume_user`, with the words built for it above the stack pointer |
| ContextResumes.CloneReachesUser | kernel/arch/task.c:112-149 | in every run a cloned task reaches `iretq` with its entry point, the new user stack, flags 0x202 and rax = 0 |
| ContextResumes.FirstTaskIsBootCode | kernel/arch/task.c:30-50 | the first task is the boot code: its first resume is at the stack pointer of its first switch away, which overwrote the pointer to the frame built for it, and with the context given up there unless that was overwritten on the entry stack |
| ContextResumes.FirstResume | kernel/arch/task.c:30-77 | a created task starts at its entry point if and only if a task existed at its creation |
| ContextResumes.NullEntryIsNeverReached | kernel/arch/main.c:61 | the kernel's one creation, entry point 0 as the first task, never resumes on the stack built for it, but at the stack pointer where the boot code was switched away |
| KernelTasks.Kernel.constructor | kernel/arch/task.c:21-27 | the state at boot, without tasks, is one that runs start from |
| KernelTasks.Kernel.SwitchProcess | kernel/arch/task.c:155-163 | lock, arguments, call and `switch_task` together are one switch step to the next task round the ring; with fewer than two tasks nothing happens |
| KernelTasks.Kernel.InitializeProcess | kernel/arch/task.c:28-78 | stack, saved pointer and list entry together are one creation step, for the first task and for later ones |
| KernelTasks.Kernel.CloneProcess | kernel/arch/task.c:88-153 | stack, saved pointer and list entry together are one clone step; the 2048 bytes from the new user stack on equal the parent's, and no other word changes |
| KernelTasks.Kernel.EnterFromUser | kernel/arch/idt.c:94-103 | an interrupt or system call in user mode is one entry step: every gate uses the same entry stack, whatever the task |
| KernelTasks.Kernel.ReturnToUser | kernel/arch/irq.s:106-127 | the end of an interrupt is one step back to user mode with the words of the trap, flags and segments included, and gs swapped back |
| KernelTasks.Kernel.EnterSystemCall | kernel/arch/irq.s:196-221 | a system call is likewise one entry step |
| KernelTasks.Kernel.ResumeUser | kernel/arch/irq.s:173-194 | `resume_user`, and the end of a system call, is likewise one step to user mode |
| KernelTasks.Kernel.StartProgram | kernel/arch/irq.s:157-171 | `switch_to_user` is one step to user mode on the boot stack |
| TaskHistories.FirstTaskResumed | kernel/arch/main.c:61 | a history of the kernel with two creations and two switches: the boot code goes on with its own context, on its own stack |
| TaskHistories.ParentResumesAsClone | kernel/arch/gdt.c:51-53 | a history of the kernel: a program clones itself, both are interrupted in user mode, and the parent then goes on with the clone's registers and at the clone's entry point |
| Rounds.RingFollows | kernel/arch/task.c:155-163 | in every run of round-robin switches the processor's tasks are those of the ring model, with the same one current |
| Rounds.SwitchedTo | kernel/arch/task.c:155-163 | a task that is not running is switched to within its distance round the ring plus the later creations, counted in switches |
| Rounds.RoundResumes | kernel/arch/task.c:155-163 | a task that is switched out gets the processor back within as many switches as there are other tasks and later creations, and then has its context under the condition of ResumeFindsContext |
| Stacks.StackHolds | kernel/arch/task.c:33 | the block of a stack is large enough if and only if the three pages it spans are contiguous, and then has another 2048 bytes behind the stack |
| Stacks.StackMayCreate | kernel/arch/task.c:59-77 | a creation with structure and stack from malloc meets what its step requires, all words separate and room below the frame, if and only if those pages are contiguous |
| Stacks.CloneMayCreate | kernel/arch/task.c:103-104 | a clone's kernel stack needs no contiguous pages and leaves exactly 64 bytes for `unlock` |
| Stacks.CopyIsUnowned | kernel/arch/task.c:113-117 | the copy of the user stack, which starts at the end of the block asked for, stays in memory that belongs to no task if the three pages are contiguous |
| TaskRing.Scheduler.constructor | kernel/arch/task.c:21-25 | before the first creation the lists are empty and every invariant holds |
| TaskRing.StartOk | kernel/arch/task.c:21-163 | every ring reached from the empty one is well formed |
| TaskRing.Scheduler.NoEndInCycle | kernel/arch/task.c:82-85 | with two tasks or more every cell has a successor in the list, so a search for an absent id has no end |
| TaskRing.TokenMeaning | kernel/misc/tokenmgr.c:18-40 | a token keeps the lowest bit of the permissions it is made with, and grants that and nothing else |
| TaskRing.CreatedTask | kernel/arch/task.c:59-67 | a new task has the next id and the given entry point, and its working directory is the root exactly if its creator may access it |
| TaskRing.Scheduler.GetTokenForProcess | kernel/misc/tokenmgr.c:18-30 | appends one token with the id and permission bit 0 to the end of the token list |
| TaskRing.Scheduler.LastTask | kernel/arch/task.c:52-57 | the tail search ends in the list or the cycle and returns its last cell |
| TaskRing.Scheduler.FindProcess | kernel/arch/task.c:80-87 | terminates in the cycle when the id is there, and returns its task |
| TaskRing.Scheduler.CheckToken | kernel/misc/tokenmgr.c:32-40 | granted exactly if there is no current task or its token has every bit asked for |
| TaskRing.Scheduler.GetRootObject | kernel/object/object.c:18-21 | the root directory is given exactly to tasks whose token grants it |
| TaskRing.Scheduler.InitializeProcess | kernel/arch/task.c:28-78 | the ring gains one task with the next id just before the first, keeping the single cycle |
| TaskRing.Scheduler.CloneProcess | kernel/arch/task.c:88-153 | the same with a granting token; returns the new id |
| TaskRing.Scheduler.SwitchProcess | kernel/arch/task.c:155-163 | the current task moves on by one round the ring; with fewer than two tasks nothing happens |
| TaskRing.RunOk | kernel/arch/task.c:28-163 | over every run ids are distinct and increasing, and no task moves, leaves or loses its token |
| TaskRing.DistanceStep | kernel/arch/task.c:59-77 | a switch lowers a waiting task's distance by one; a creation raises it by one exactly if the way crosses the tail-to-first link |
| TaskRing.Fairness | kernel/arch/task.c:155-163 | from any ring a task runs after at most its distance plus the later creations, counted in switches |
| TaskRing.CheckRemembersCreation | kernel/misc/tokenmgr.c:32-40 | whenever the task is current again, the root permission is granted exactly if it was created with bit 0 or cloned |
| Spinlock.StepKeepsInv | kernel/misc/spinlock.c:6-19 | each load, exchange, store, `cli` and `sti` step keeps the lock invariant |
| Spinlock.MutualExclusion | kernel/misc/spinlock.c:6-19 | for any number of processors and any interleaving at most one is between lock and unlock, and the word is 1 exactly while one is |
| Spinlock.StartInv | kernel/misc/spinlock.c:6-19 | the invariant holds at the start |
| Spinlock.FreeLockIsTaken | kernel/misc/spinlock.c:8-13 | a free lock is taken by any waiting processor that gets two steps in a row |
| Malloc.ClassFits | kernel/misc/malloc.c:58-60 | a block of the chosen class is larger than the size and, from 8 bytes up, at most twice it |
| Malloc.Heap.PopFromStack | kernel/misc/malloc.c:32-38 | pops the first block of the free list, leaving the chain of the rest |
| Malloc.Heap.Carve | kernel/misc/malloc.c:99-107 | the carved free list visits all `4072 >> (3+list)` blocks of the page once, in ascending order, and writes nothing outside the page |
| Malloc.Heap.Expand | kernel/misc/malloc.c:93-110 | a new page becomes the open page of its bin and no other bin or block changes |
| Malloc.Heap.Take | kernel/misc/malloc.c:112-117 | hands out the next block of the open page and drops the page from its bin with its last block |
| Malloc.Heap.BigMalloc | kernel/misc/malloc.c:62-91 | takes the header page and the further pages, and appends the header to the list of large blocks |
| Malloc.Heap.BinFor | kernel/misc/malloc.c:58-60 | the counting loop yields the bit length of size / 8 |
| Malloc.Heap.Malloc | kernel/misc/malloc.c:57-119 | every call returns a new block, keeps all earlier grants good and disjoint, writes into none of them, and the block holds the size if and only if it is small or the next pages it spans are contiguous |
| Malloc.Heap.UserWrite | kernel/misc/malloc.c:57-119 | a program writing inside its block breaks no bin, no header and no other block |
| Malloc.BlocksDisjoint | kernel/misc/malloc.c:93-119 | different blocks share no address |
| Malloc.BlocksAvoidHeaders | kernel/misc/malloc.c:93-119 | no block contains a header or a block not yet handed out |
| Malloc.GrantsDisjoint | kernel/misc/malloc.c:57-119 | in any run without `free` no two served requests share an address |
| Malloc.Heap.constructor | kernel/misc/malloc.c:24-25 | the empty bins and lists satisfy the invariants that every call keeps |
| Malloc.LargeFits | kernel/misc/malloc.c:62-91 | a large block holds the requested size if and only if the pages the request spans are contiguous; those are at most the header page and half of the further ones taken, and up to 4072 bytes the header page alone does |
| Malloc.PagesTakenForLarge | kernel/misc/malloc.c:69-88 | the further pages taken for a large request are more than twice and at most four times its size |
| Malloc.LargeNeedNotFit | kernel/misc/malloc.c:62-73 | 4073 bytes on a page followed by two scattered ones get 4072 |
| Malloc.CountsGrow | kernel/misc/malloc.c:93-119 | each small request is one more block of its class and no other request is |
| Malloc.BlocksArePages | kernel/misc/malloc.c:93-119 | all pages of a class but the open one are full |
| Malloc.PagesTaken | kernel/misc/malloc.c:93-119 | the pages of a class hold its requests and one less would not: exactly ceil(k / blocks per page) |
| CString.Strncmp | libc/string/strncmp.c:3-13 | zero exactly if the first n characters, up to the terminating zeros, agree |
| CString.Itoa | kernel/misc/sbd.c:29-40 | writes exactly the digits of the number at the start of the buffer and nothing behind them |
| CString.DigitsValue | kernel/misc/sbd.c:29-40 | the digits have the number as their value |
| CString.DigitsInjective | kernel/misc/sbd.c:29-40 | different numbers print differently |
| CString.NoLeadingZero | kernel/misc/sbd.c:29-40 | no leading zero: the digit string is the shortest |
| CString.DigitsFit | kernel/misc/sbd.c:50 | a 64-bit number has at most 64 digits in any base, which the 65-byte buffer holds |
| Serial.ShowsNumber | kernel/misc/sbd.c:65-78 | "%d" and "%x" show a number in decimal and hexadecimal without leading zeros, a negative one as its 64-bit two's complement |
| Serial.ShowsText | kernel/misc/sbd.c:58-83 | text without a percent sign is shown as it is, and "%c" shows one character |
| Serial.RenderJoin | kernel/misc/sbd.c:48-84 | formats that follow one another print one after another, each with its own arguments |
| Serial.Port.PutNumber | kernel/misc/sbd.c:65-78 | sends exactly the digits and leaves the buffer cleared |
| Serial.Port.Kprint | kernel/misc/sbd.c:48-84 | the output is the recursive rendering of format and arguments |
| ObjectDirectory.StrSlice | kernel/object/directory.c:8-13 | copies the characters from start to end, the terminating zero included when it is reached |
| ObjectDirectory.ObjectManager.ComponentEnd | kernel/object/directory.c:64-68 | finds the end of the first component, and fails exactly on an over-long one |
| ObjectDirectory.HeaderList.FindChild | kernel/object/directory.c:77-84 | the loop over the linked list returns the first child whose 32-character prefix matches |
| ObjectDirectory.ObjectManager.ResolveObjectName | kernel/object/directory.c:58-95 | the resolver is the first-match walk over the '/'-separated components, from the given or the current directory |
| ObjectDirectory.HeaderList.AddChild | kernel/object/directory.c:15-27 | the search for the last cell ends, and the new cell is linked behind it |
| ObjectDirectory.ObjectManager.FindChild | kernel/object/directory.c:77-84 | the search in a directory's linked list is the first match among its children |
| ObjectDirectory.ObjectManager.AddChild | kernel/object/directory.c:15-27 | exactly that directory's children grow by one at the end, and every list stays linked and apart from the others |
| ObjectDirectory.ObjectManager.InitializeObjectManager | kernel/object/object.c:11-16 | the first namespace is closed and "./Devices" resolves to an empty directory in it |
| ObjectDirectory.ObjectManager.CreateDirectory | kernel/object/directory.c:50-56 | a new empty directory with the first 32 characters of the name at the end of the parent's children |
| ObjectDirectory.ObjectManager.ChangeWorkingDirectory | kernel/object/directory.c:97-101 | the working directory becomes what the name resolves to, or -1 and no change; the namespace stays closed if and only if that is a directory |
| ObjectDirectory.DuplicateIsInvisible | kernel/object/directory.c:15-27 | appending a child whose name prefix is taken changes the result of no walk |
| ObjectDirectory.ResolvedStays | kernel/object/directory.c:15-27 | appending any child leaves every name that already resolved with its result |
| ObjectDirectory.WalkExtends | kernel/object/directory.c:90-92 | one more component continues from the directory reached |
| ObjectDirectory.CreatedIsFound | kernel/object/directory.c:50-56 | a directory created under a fresh short name is what the name resolves to |
| ObjectDirectory.MatchByPrefix | kernel/object/directory.c:80 | matching depends on the first 32 characters only |
| NameLaws.SplitMeaning | kernel/object/directory.c:64-71 | a name is cut at every slash and nowhere else, and its components joined are the name |
| NameLaws.SplitUnique | kernel/object/directory.c:64-71 | there is only one such way to cut it |
| NameLaws.FirstMatchMeaning | kernel/object/directory.c:77-84 | the child found is the first whose first 32 characters are those of the name, and none is found exactly if none has |
| NameLaws.DotIsRoot | kernel/object/directory.c:73-75 | with access to the root a "." leads there from every directory |
| NameLaws.DotIsCwd | kernel/object/directory.c:73-75 | without access it leads to the working directory |
| NameLaws.CwdIsIrrelevant | kernel/object/directory.c:58-95 | with access the result of a walk from a given directory does not depend on the working directory |
| NameLaws.AbsoluteName | kernel/object/directory.c:73-75 | with access a name that begins with "./" means the same in every working directory: what the rest means from the root |
| NameLaws.DevicesAfterChange | kernel/object/directory.c:97-101 | after changing to "./Devices" a task with access still finds "./Devices", one without does not |
| NameLaws.WalkStaysBelow | kernel/object/directory.c:58-95 | a walk stays below a directory that it starts below, if every "." leads below it |
| NameLaws.NoAccessStaysInside | kernel/object/directory.c:58-95 | a task without access reaches by name nothing outside what lies below its working directory |
| NameLaws.OverlongFails | kernel/object/directory.c:64-68 | a component of more than 32 characters is never found, one of 32 not at the end |
| NameLaws.TrailingSlash | kernel/object/directory.c:90-94 | a slash at the end changes nothing |
| NameLaws.DotAlone | kernel/object/directory.c:73-75 | "." alone resolves to a nameless child of the root, so usually to nothing |
| Pci.WalkFindsReachable | kernel/misc/pci.c:106-138 | the walk from a bus visits a function exactly if it answers on a bus at or behind that bus |
| Pci.WalkVisitsOnce | kernel/misc/pci.c:106-138 | if no bus lies behind two bridges, no function is visited twice |
| Pci.BranchesDisjoint | kernel/misc/pci.c:115-118 | two slots of a bus lead to disjoint parts of the tree |
| Pci.BridgeIsSingle | kernel/misc/pci.c:57-119 | a bridge's header type leaves the multi-function bit clear, so the inner bridge branch is dead |
| Pci.HeaderBytes | kernel/misc/pci.c:57-66 | header type and secondary bus are the named bytes of their configuration words |
| Pci.AnswersWords | kernel/misc/pci.c:34-40 | when a function is found on its bus, in terms of its slot's configuration words |
| Pci.WordIsBytes | kernel/misc/pci.c:10-18 | reading a configuration word at an even offset gives the two bytes there, the lower one first |
| Pci.ClassIsBytes | kernel/misc/pci.c:61-62 | a function has a class exactly if byte 0xB of its configuration space is the class and byte 0xA the subclass, those of function 0 for a bridge |
| Pci.WalkInOrder | kernel/misc/pci.c:106-138 | what lies under one slot of a bus is visited before what lies under a later one, and within a slot the functions in order |
| Pci.BehindInOrder | kernel/misc/pci.c:115-118 | behind a bridge the order is that of the bus behind it, right after the bridge itself |
| Pci.NamesDiffer | kernel/misc/pci.c:109-112 | numbers below 1000 give different names, also in their first 32 characters |
| Pci.PathSplits | kernel/misc/pci.c:142-146 | the search path has the components of the directory path followed by the device name |
| PciBus.FindNumbered | kernel/misc/pci.c:142-147 | resolving a printed number finds the child registered under it, or nothing past the last |
| PciBus.Driver.HalInitializePci | kernel/misc/pci.c:28-32 | makes an empty, reachable device directory where the name was free |
| PciBus.Driver.NumberedName | kernel/misc/pci.c:109-112 | the name buffer holds the prefix followed by the printed number |
| PciBus.Driver.HalAddPciDevice | kernel/misc/pci.c:42-89 | appends an object that describes the function truthfully by its configuration words exactly if the directory resolves and the function answers, else changes nothing |
| PciBus.Driver.Describe | kernel/misc/pci.c:57-86 | both ways to fill in an object agree with the configuration words, a bridge with those of function 0 |
| PciBus.Driver.HalCheckPciBus | kernel/misc/pci.c:106-138 | terminates on an acyclic topology and registers exactly the depth-first walk, densely numbered |
| PciBus.Driver.CheckLaterFunctions | kernel/misc/pci.c:119-135 | registers the answering functions 1 to 7 in order |
| PciBus.ScanAndSearch | kernel/misc/pci.c:28-154 | from the first namespace on: initialisation, the scan of bus 0 and a search give the n-th function in walk order whose configuration words have the class |
| PciBus.Driver.HalSearchForPciDevice | kernel/misc/pci.c:140-154 | returns the n-th registered function, in walk order, whose configuration words have the class, and null exactly if there are fewer |

## Left out

- `free`, and the reuse of large blocks: `free` pushes the page base instead of the block (kernel/misc/malloc.c:122-132), so the allocator is stated for runs without it.
- `libc/stdlib/malloc.c`: the same code over a system call.
- `DirectoryRemoveChild` (kernel/object/directory.c:29-48): nothing calls it.
- `KernelLoadElfLibrary`, `KernelResolveElfRelocations`, `add_to_symbols` and `search_for_modules` (kernel/misc/elf.c): raw section tables of one linker's output, and plain list insertion and search.
- The file system, `dprintf`, ACPI, AHCI, PS/2, framebuffer, descriptor tables, processor start-up, the serial handshake, port input and output, the boot-loader requests and the system-call wrappers.
- TLB contents, interrupts that arrive inside `switch_task` after `sti`, and writes through the direct map that hit a page table.
- Page access rights: the rights of every walk are proved, but that the processor enforces them, and that it ignores the write bit in the kernel, is not modelled; neither is the no-execute bit.
- AddressSpace.StepKeepsInv: a released frame must be a data frame in use; the code pushes any page-aligned address.
- AddressSpace.ReleaseKeepsInv: likewise, since pushing a frame that is free or a page table breaks ownership.
- ElfLoader.Loader.Load: the file is a value, so that the block from `malloc(fo->size)` holds it is assumed; `Malloc.LargeFits` says when it does. Virtual addresses are numbers below 2^48 cut into the same four indices, the bytes of data frames are kept beside the table words, and the address space is a field of values rather than the memory manager object, related to it by `PathsAgree` and the contract of `Mmu.MemoryManager.MapPage`; what the model then does not capture is a load that runs while another routine writes the same root.
- ContextResumes.ResumeFindsContext: runs are of one processor; the stack below the saved pointer has room for `unlock`; what the C routines themselves push on the running stack is part of the running code's own work.
- ContextSwitch.Processor.ResumeUser: privilege checks of `iretq` and the segment caches are not part of this model; `cs`, `ss` and the flags are plain words.
- KernelTasks.Kernel.EnterFromUser: entries that interrupt the kernel itself stay on the running stack and are part of the running code's own work; the word that the system call saves at `gs:0x78` is not modelled.
- TaskRing.Scheduler.SwitchProcess: the lock, the cr3 load and the call of `switch_task` are in `KernelTasks.Kernel.SwitchProcess` and `KernelHalf`, not in the ring.
- TaskRing.Scheduler.CloneProcess: the stacks and the copy of the user stack are in `KernelTasks.Kernel.CloneProcess`.
- TaskRing.Scheduler.InitializeProcess: the task's `cr3`, stack and structure fields are modelled in `AddressSpace` and `ContextSwitch`, not in the ring.
- Malloc.Heap.Malloc: the header fields are cells by address with the field's own width, so a narrow store beside another field is not modelled; addresses are unbounded numbers.
- Boot.StaticTables.KernelInitializePaging: the boot loader's own translation of the static tables is a parameter, and loading cr3 is the passage from the arrays to physical memory in `Boot.Installed`.
- BootState.StartMemory: that physical memory holds the filled arrays at their frames is a precondition, since arrays and physical memory are two views of one thing.
- BootState.KernelInitializeMemStack: a region that wraps round the end of the address space is excluded; the halt without a memory map is not modelled.
- PciBus.Driver.HalAddPciDevice: the base addresses, identifiers and capability pointers copied into an object are not kept.
- PciBus.Driver.HalCheckPciBus: at most 999 functions, which is what the name buffers hold; configuration space is a function of bus, slot, function and offset.
- ObjectDirectory.ObjectManager.ResolveObjectName: what follows the first '/' must fit the 256-byte buffer; objects are entries of one map by number, so the type of an object is a number and the casts of the code are not modelled.
- TaskRing.Scheduler.FindProcess: an id that is absent from a ring of two or more tasks is excluded, because the code does not end on it.
- ObjectDirectory.ObjectManager.ChangeWorkingDirectory: a namespace whose working directory is no directory is where the other contracts stop.
- Serial.Port.Kprint: formats that end in a lone '%' or lack arguments run past their end in the code and are excluded.
