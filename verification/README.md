# JOS kernel: a verified model

This project models the parts of the JOS teaching kernel in which the hard bookkeeping is, and
proves what the comments in the C code promise of them.

- **Physical pages, page tables and environment teardown** (`kern/pmap.c`, `env_free` in
  `kern/env.c`). Physical memory is an array of frames of 1024 words, `pages[]` an array of links
  and an array of 16-bit counts, a directory a frame number. The class `Kernel.Pmap` carries out
  every operation in place, as the C code does; each of its methods is proved to do exactly what
  the function of the same name in `VmOps`, `VmTeardown` or `Boot` says of the state, and all
  properties are proved of those functions. Panics are results, not preconditions.
- **The invariant** `VmInv.Inv`: the free list is acyclic, NULL-terminated and without repetition;
  `pp_ref` of every page is the number of present directory and page-table entries below UTOP
  naming it plus its explicit references; every page is free, handed out and not yet counted, or
  referenced, and only one of these; each table below UTOP belongs to exactly one directory entry;
  user mappings name data pages only; above UTOP there are kernel tables and the self-map at UVPT.
- **Address translation** is judged by `VmOps.Translate`, the walk of `check_va2pa`, over the entry
  format of section 4.3 of the Intel SDM Volume 3A; who may use a translation by its rights at both
  levels (section 4.6 there). The TLB is a map from pages to entries. The
  processor may drop entries and take in any present translation of the loaded directory at any
  moment, also between two memory writes of one operation (section 4.10 there): `VmActs` lays each
  operation out as its actions in the order of the code, and `VmTlb.Runs` lets a fill happen before,
  between and after them. `Kernel.Pmap` keeps a log of the actions it carries out, and its methods
  are proved to log exactly these sequences.
- **Environment ids** (`kern/env.c`), **the STABS search** (`kern/kdebug.c`), **the console ring**
  (`kern/console.c`), **formatting, parsing and byte moves** (`lib/printfmt.c`, `lib/printf.c`,
  `lib/string.c`), each imperative where the C code is, against a specification function.

Modules: `Bits` (C's bitwise operators), `Mmu` (macros and constants), `VmOps` (operations),
`VmInv` (invariant), `VmMap` (translations), `VmPages` (walk, insert, remove), `VmTeardown`
(env_free), `VmTlb` (actions and fills), `VmActs` (the operations as actions), `VmTrack` (what each
action breaks), `VmOrder` (TLB coherence and the order of the code), `Boot` (boot_alloc, page_init,
boot_map_region, mem_init), `VmRuns` (whole runs), `VmShared` (the address
space above UTOP), `VmProtect` (who may access what), `VmLimits` (inputs on which requirements fail),
`Kernel` (the in-place code), `FreeListSplit`, `EnvIds`, `Stabs`, `Strings`, `Console`, `Numbers`,
`Format`, `FormatLaws` (what the escapes mean), `Printf`.

`dafny verify dfyconfig.toml` checks everything. The bookkeeping that no branch reads (the free
list as a sequence, the pages handed out, the owners of page tables, explicit references) is in
ghost fields of `Kernel.Pmap`.

## Where the code and its comments disagree

The model follows the code; each item names the lemma that says exactly what holds.

- `page_lookup` does not test `PTE_P`. For a page that is not mapped, `page_remove` "silently does
  nothing" if and only if the page has no page table (`VmPages.RemoveUnmappedExact`); otherwise a
  cleared entry reads as page 0, which loses a reference (`VmPages.RemoveUnmappedTakesPageZero`),
  and a creating walk is enough to get there (`VmLimits.WalkThenRemove`). "Entry present, or no page
  table" is therefore what `page_remove`'s callers owe it; both callers in the kernel see to it.
- `page_alloc` clears the page for any non-zero flag, not only for `ALLOC_ZERO`
  (`VmRuns.AllocFlagExact`).
- The double-free guard of `page_free` misses the tail of the list (`VmRuns.DoubleFreeGuard`), and
  freeing the tail again closes the list into a cycle (`VmRuns.TailDoubleFreeCycles`).
- `pp_ref` wraps at 65536: `page_insert` keeps the counts right if and only if the count has room or
  the page is being mapped again at the same address (`VmPages.InsertRoomExact`); a full count is in
  reach (`VmLimits.FullCountInReach`).
- `boot_alloc` should panic when out of memory and has no check: its pointer wraps
  (`Boot.BootAllocWraps`), and its chunks are one behind the other and in physical memory if and only
  if their sizes in whole pages fit what is left (`Boot.BootAllocExact`).
- `page_init` keeps back one frame that is not in use, the one at the boot allocator's mark
  (`Boot.MarkFrameKept`).
- `stab_binsearch` changes the key on an exact hit, so it may return the next entry
  (`Stabs.AdjacentStarts`); `Stabs.BinSearchExact` says exactly when its result is the right one. Its
  documented sign `left > right` for "not contained" can be trusted exactly under the condition of
  `Stabs.EmptyRegionTrusted`.
- `debuginfo_eip` tests the file search for 0 only, while a first file entry above the address gives
  -1 (`Stabs.StrayExact`), and a right answer 0, a file entry that opens the table, is taken for a
  failure (`Stabs.NestedExact`). When no line entry is found it should return -1; the code prints a line
  and returns 0, and `eip_line` is set exactly if the region searched holds a line entry
  (`Stabs.LineSetExact`).
- The address space above UTOP is to be the same in all environments: that holds exactly as long as
  no creating walk makes a kernel table in one directory of several (`VmShared.StepSameExact`).
- `'-'` is a "flag to pad on the right", yet a number is padded on the left with `'-'` characters, as
  with any other padding character (`Numbers.PrintNumPads`); only `%s` pads on the right. A minus sign
  comes before the padding, so that `strtol` can read what `%d` wrote exactly under the condition of
  `FormatLaws.ReadBackExact`.
- The console ring has no full test: it is the queue it is meant to be exactly as long as at most
  511 characters are outstanding (`Console.RingIsFifoExact`); a 512th makes it empty
  (`Console.OverflowLosesAll`).

## Model

| member | source | states |
|---|---|---|
| `Mmu.IndexMacroForms` | inc/mmu.h:33-36 | PDX and PTX as shift and mask equal the quotients every walk here uses |
| `Mmu.Layout` | inc/memlayout.h:87-123 | the addresses and directory indices used here are the header's, counted down from KERNBASE in regions of PTSIZE |
| `Mmu.EntryMacroForms` | inc/mmu.h:39-76 | PGOFF, PTE_ADDR and the PTE_P test as masks equal remainder, difference and parity of the word |
| `Mmu.RightsForms` | inc/mmu.h:58-60 | the PTE_W and PTE_U tests as masks are the second and third binary digit of the word |
| `Mmu.PgaddrForm` | inc/mmu.h:42 | PGADDR's or of shifted fields is their sum, because the fields do not meet |
| `Mmu.AddressRoundTrip` | inc/mmu.h:25-42 | PGADDR of PDX, PTX and PGOFF gives the address back, and PDX, PTX and PGOFF of PGADDR give the parts back, for all addresses and parts |
| `Mmu.EntryForm` | kern/pmap.c:461 | the arithmetic Entry is page2pa(pp) or perm or PTE_P, whatever bits perm has |
| `Mmu.Entry` | kern/pmap.c:461 | the stored entry is present, names exactly that frame, and carries perm with PTE_P added |
| `Mmu.ConversionsInverse` | kern/pmap.h:28-81 | KADDR adds 0xF0000000 and panics exactly beyond physical memory, PADDR panics exactly below 0xF0000000; they, and page2pa and pa2page, are inverse where they do not panic |
| `VmOps.TranslateMacros` | kern/pmap.c:778-790 | the reference walk is check_va2pa as written with shifts and masks, keeping the entry's permissions |
| `VmOps.CountWraps` | inc/memlayout.h:179-184 | pp_ref goes up and down modulo 65536 |
| `VmInv.PageAllocInv` | kern/pmap.c:301-317 | page_alloc keeps the invariant, fails exactly on an empty list and then changes nothing, otherwise hands out the head of the list, cleared for a non-zero flag, and touches no other page, count or link of a listed page |
| `VmInv.PageFreeInv` | kern/pmap.c:324-336 | page_free of a page handed out and not counted never panics, keeps the invariant and puts the page at the head |
| `VmInv.UnpinInv` | kern/pmap.c:342-347 | page_decref of an explicit reference never panics; exactly at zero the page goes to the head of the list; invariant kept |
| `VmInv.PinInv` | kern/pmap.c:349-392 | an explicit pp_ref++ below the 16-bit limit on a data page off the free list keeps the invariant |
| `VmInv.MakeDirInv` | kern/env.c:155-188 | the directory env_setup_vm's comment describes joins the invariant; its words are 0 below UTOP, the kernel's above, and p * 4096 + 5 at UVPT: itself, present, for users, not writable |
| `VmInv.NamedIsReferenced` | inc/memlayout.h:179-184 | a page named by any counted entry has a positive count and is neither free nor merely handed out |
| `VmInv.ChainPush` | kern/pmap.c:330-332 | linking a page off the list in front keeps the list acyclic, NULL-terminated and free of repetition |
| `VmInv.ChainPop` | kern/pmap.c:308-310 | unlinking the head keeps the list well-formed and leaves the head off it with a NULL link |
| `VmMap.TableWriteMap` | kern/pmap.c:512 | writing one entry of a user table changes the translation of exactly one virtual page of exactly one directory |
| `VmMap.InstallMap` | kern/pmap.c:389-393 | a fresh table maps nothing: every translation of every directory stays, but for the one window page at UVPT that may start to show the table |
| `VmMap.SelfMapWindow` | inc/memlayout.h:147-161 | through the self-map, page i of the UVPT window translates to directory entry i |
| `VmMap.DataIrrelevant` | kern/pmap.c:778-790 | the contents of pages that are neither directory nor table have no influence on any translation |
| `VmPages.PgdirWalkKeeps` | kern/pmap.c:371-397 | pgdir_walk never panics, keeps the invariant, fails exactly when a table is missing and is not wanted or cannot be had (and then changes nothing), and otherwise returns the slot for va in the table the directory entry names |
| `VmPages.WalkMakesEntry` | kern/pmap.c:385-393 | a table made by the walk is the head of the free list, cleared, entered with PTE_P, PTE_W and PTE_U, and no other word of memory changes |
| `VmPages.PgdirWalkMap` | kern/pmap.c:371-397 | a walk, creating or not, changes no translation except that a new table shows in the directory's own UVPT window |
| `VmPages.PageRemoveCorrect` | kern/pmap.c:503-514 | page_remove below UTOP, entry present or no table: no panic, exactly that translation disappears, one reference is dropped and a last one frees the page, TLB stays coherent, invariant kept |
| `VmPages.RemoveUnmappedExact` | kern/pmap.c:489-514 | for an unmapped page, doing nothing, as the comment promises, happens if and only if there is no page table |
| `VmPages.RemoveUnmappedTakesPageZero` | kern/pmap.c:476-514 | the counterexample family: with a table and a cleared entry, page 0 loses its last reference and heads the free list |
| `VmPages.PageInsertCorrect` | kern/pmap.c:449-464 | page_insert returns -E_NO_MEM exactly when a table is needed and the list is empty, changing nothing; otherwise va maps to (page, perm) and no other page of any directory changed, counts move as documented, the same page re-inserted is never freed, TLB coherent, invariant kept |
| `VmPages.ReinsertEntry` | kern/pmap.c:436-440 | re-inserting the same page at the same address leaves counts and free list alone and only rewrites the permissions and flushes the page |
| `VmPages.InsertRoomExact` | inc/memlayout.h:179-184 | with the 16-bit count modelled, page_insert succeeds and keeps the invariant if and only if the count is below 65535 or va maps that page already |
| `VmTeardown.EnvFreeCorrect` | kern/env.c:349-391 | env_free of a well-formed environment: no panic; directory and all its tables below UTOP freed; every page loses exactly the references this address space held, those with none left, and no others, join the free list; other environments translate as before; no entry at or above UTOP changes |
| `VmTeardown.OwnRefsAreMappings` | kern/env.c:365-381 | the references a page loses are one for each virtual page below UTOP that mapped it |
| `VmTeardown.UnmapTableKeeps` | kern/env.c:377-381 | the inner loop empties one table from any entry on, keeps the invariant at each step and touches nothing else |
| `VmTeardown.UnmapDirKeeps` | kern/env.c:365-386 | the outer loop empties the directory below UTOP from any entry on and gives up exactly the tables it owns there |
| `VmTeardown.DropTableKeeps` | kern/env.c:383-385 | releasing an emptied table never panics and clears just its directory entry |
| `VmTlb.RunsCoherent` | kern/pmap.c:516-526 | for any sequence of actions and any fills between them, only the pages whose translation an action broke and no later invlpg or lcr3 flushed can be cached wrongly |
| `VmActs.RemoveDoes` | kern/pmap.c:503-514 | page_decref, the cleared entry and invlpg, in this order, are what page_remove does |
| `VmActs.InsertDoes` | kern/pmap.c:449-464 | walk, count, removal, entry, in this order, are what page_insert does |
| `VmActs.EnvFreeDoes` | kern/env.c:349-391 | lcr3, the unmapping loops and the two page_decref's, in this order, are what env_free does |
| `VmOrder.RemoveOrdered` | kern/pmap.c:503-526 | page_remove with any fills between its actions: at every point the loaded directory is not freed and only va, if at all, is cached wrongly; at the end nothing is |
| `VmOrder.InsertOrdered` | kern/pmap.c:449-464 | the same for page_insert, a removal inside it and a new table included |
| `VmOrder.WalkOrdered` | kern/pmap.c:371-397 | during a walk that makes a table nothing at all is ever cached wrongly |
| `VmOrder.EnvFreeOrdered` | kern/env.c:356-391 | env_free with any fills between its actions: at every point every cached entry is the current translation and the loaded directory is neither freed nor on the free list |
| `VmOrder.FlushFirstExact` | kern/pmap.c:511-513 | with invlpg before the entry is cleared, nothing stale is left over all fills if and only if the directory is not the loaded one |
| `VmOrder.LoadLastExact` | kern/env.c:356-391 | with lcr3 at the end of env_free, the loaded directory is never freed over all fills and points in time if and only if it is another one |
| `VmRuns.StepSafe` | kern/pmap.c:301-526 | each of the ten operations keeps invariant and TLB coherence and does not panic |
| `VmRuns.StepOrdered` | kern/pmap.c:301-526 | each of them with fills anywhere inside: at every point the loaded directory is safe and only the page under removal may be cached wrongly; at the end none is |
| `VmRuns.RunSafe` | kern/pmap.c:301-526 | over every run of enabled operations, with fills before, between and inside them, the invariant and TLB coherence hold and no operation enabled next panics |
| `VmRuns.BootThenRun` | kern/pmap.c:118-217 | from cleared page structures, with kern_pgdir and pages[] where mem_init's boot_alloc calls put them and page_init given the mark they leave: boot and then any run are safe when 66 pages are free |
| `VmShared.StepSameExact` | kern/env.c:166-175 | an operation keeps all directories alike above UTOP, UVPT apart, if and only if it is no creating walk that makes a kernel table in one directory of several |
| `VmShared.RunSameAbove` | kern/env.c:166-175 | so over every run without such walks, fills included, the address spaces of all environments are the same there |
| `VmProtect.Rights` | inc/memlayout.h:106-123 | in every directory, with the rights of both levels combined: no user access from ULIM up, the page tables at UVPT not writable, pages[] readable and not writable, user mappings with just the rights of their own entry, and no kernel mapping without the write bit |
| `VmProtect.StepGuarded` | kern/pmap.c:118-119 | each of the ten operations keeps the two things these rights follow from: the directory entries (UVPT read-only, 7 elsewhere) and mem_init's mappings in all directories |
| `VmProtect.RunGuarded` | kern/pmap.c:118-119 | so does every run, with any fills |
| `VmProtect.BootGuarded` | kern/pmap.c:118-217 | and boot from cleared page structures establishes them |
| `VmRuns.FramesConserved` | kern/pmap.c:287-347 | in every state of the invariant free, handed-out and referenced pages add up to all of physical memory |
| `VmRuns.AllocFlagExact` | kern/pmap.c:289-317 | the page is cleared as the comment says if and only if the flags are 0 or contain ALLOC_ZERO (or it was clear) |
| `VmRuns.DoubleFreeGuard` | kern/pmap.c:326-335 | freeing a listed page panics if and only if it is not the tail |
| `VmRuns.FreePanicExact` | kern/pmap.c:324-336 | for every page, page_free panics if and only if the page is referenced, or listed and not the tail |
| `VmRuns.TailDoubleFreeCycles` | kern/pmap.c:326-335 | freeing the tail again succeeds and leaves links that no finite list describes |
| `VmLimits.WalkThenRemove` | kern/pmap.c:371-514 | from any state of the invariant in which page 0 has one reference, a creating walk and page_remove at the same address free page 0 |
| `VmLimits.FullCountInReach` | inc/memlayout.h:179-184 | enough explicit references lead to a state of the invariant in which page_insert breaks it |
| `VmLimits.RemoveAboveUtop` | kern/pmap.c:401-403 | page_remove of any static mapping at or above UTOP panics or breaks the counts |
| `VmLimits.InsertAboveUtop` | kern/pmap.c:401-403 | so does page_insert there, unless va maps that page already or no table can be had |
| `VmLimits.InsertAgainAboveUtop` | kern/pmap.c:436-440 | where va maps the page already, page_insert at or above UTOP keeps the invariant, and puts the page on the free list exactly if it had no reference |
| `VmLimits.CountFirstExact` | kern/pmap.c:456-459 | with the removal before the count, a page mapped again at its address would be free under its own mapping if and only if that was its only reference |
| `Boot.PageInitCorrect` | kern/pmap.c:248-287 | page_init leaves exactly the unreserved frames on the list, each once, highest first, and establishes the invariant |
| `Boot.FreeBelow` | kern/pmap.c:248-287 | a frame is on page_init's list exactly if it is not page 0 and does not start between IOPHYSMEM and the mark |
| `Boot.FreeDescends` | kern/pmap.c:280-286 | the list runs from the highest frame down |
| `Boot.ChunksInRowExact` | kern/pmap.c:85-109 | the chunks of a run of boot_alloc calls lie one behind the other if and only if start plus sizes in whole pages stay below 2^32 |
| `Boot.ChunksDisjoint` | kern/pmap.c:85-109 | then each is page-aligned, of the size asked for, behind all before it, and ends by the mark |
| `Boot.BootAllocExact` | kern/pmap.c:80-83 | they are also in physical memory if and only if start plus sizes in whole pages stay within it: when the comment's panic would be due |
| `Boot.BootAllocWraps` | kern/pmap.c:104-108 | the concrete failure: 12 KB asked for 8 KB below the top leave nextfree at 0x1000 |
| `Boot.FreeAvoidsBootMemory` | kern/pmap.c:85-287 | after any run that does not wrap, no byte of a frame page_init frees is in page 0, in the I/O hole, in the kernel image up to end, or in any boot_alloc chunk |
| `Boot.MarkFrameKept` | kern/pmap.c:271-285 | the frames kept back are page 0, those from IOPHYSMEM up to the mark, and the one at the mark |
| `Boot.BootFrames` | kern/pmap.c:131-157 | kern_pgdir and pages[] start on frames of their own that page_init keeps back, and below the mark there is room for 8 bytes a page |
| `Boot.BootMapCorrect` | kern/pmap.c:406-421 | boot_map_region maps page k of the range to pa + k*PGSIZE with the permissions, changes no other translation and no mapped page's count, takes one free page per missing table, and panics exactly when those are not there |
| `Boot.MemInitCorrect` | kern/pmap.c:173-220 | the three calls succeed exactly with 66 free pages; then outside the UVPT window the kernel directory maps pages[] at UPAGES with entry bits 5, the stack below KSTACKTOP with nothing under it and physical memory at KERNBASE with bits 3, and nothing else; TLB coherent after lcr3 |
| `Boot.KernbaseIsIdentity` | kern/pmap.c:203-210 | KERNBASE + x translates to x for every x below 2^28, in spite of the size 0x0fffffff and of va wrapping to 0 |
| `Kernel.BootAllocator.BootAlloc` | kern/pmap.c:85-109 | result and new nextfree of one call, the first one included, in 32-bit arithmetic |
| `Kernel.Pmap.constructor` | kern/pmap.c:131-151 | the state before page_init: memory and page array cleared, kern_pgdir mapping itself at UVPT |
| `Kernel.Pmap.PageAlloc` | kern/pmap.c:301-317 | in place, exactly VmOps.PageAlloc, by the actions VmActs gives, in their order |
| `Kernel.Pmap.PageFree` | kern/pmap.c:324-336 | in place, exactly VmOps.PageFree, panic included, by the actions VmActs gives, in their order |
| `Kernel.Pmap.PageDecref` | kern/pmap.c:342-347 | in place, exactly VmOps.PageDecref, 16-bit wrap included, by the actions VmActs gives, in their order |
| `Kernel.Pmap.PgdirWalk` | kern/pmap.c:371-397 | in place, exactly VmOps.PgdirWalk: the slot or the null pointer, and the new memory, by the actions VmActs gives, in their order |
| `Kernel.Pmap.PageLookup` | kern/pmap.c:476-486 | exactly VmOps.PageLookup, changing nothing |
| `Kernel.Pmap.TlbInvalidate` | kern/pmap.c:520-526 | drops just the cached translation of that page |
| `Kernel.Pmap.PageRemove` | kern/pmap.c:503-514 | in place, exactly VmOps.PageRemove, by the actions VmActs gives, in their order |
| `Kernel.Pmap.PageInsert` | kern/pmap.c:449-464 | in place, exactly VmOps.PageInsert with its return code, by the actions VmActs gives, in their order |
| `Kernel.Pmap.BootMapRegion` | kern/pmap.c:406-421 | the loop carries out Boot.BootMap for the size rounded up to pages |
| `Kernel.Pmap.PageInit` | kern/pmap.c:248-287 | the loop carries out Boot.PageInit |
| `Kernel.Pmap.MemInit` | kern/pmap.c:173-220 | the three calls and lcr3 carry out Boot.MemInit |
| `Kernel.Pmap.EnvFree` | kern/env.c:349-391 | the nested loops carry out VmTeardown.EnvFree, by the actions VmActs gives, in their order |
| `Kernel.Pmap.EmptyDirectory` | kern/env.c:365-386 | the outer loop carries out VmTeardown.UnmapDir, by the actions of VmActs.DirActs |
| `Kernel.Pmap.EmptyTable` | kern/env.c:377-381 | the inner loop carries out VmTeardown.UnmapTable, by the actions VmActs gives, in their order |
| `FreeListSplit.Split` | kern/pmap.c:592-605 | the in-place two-tail relinking is a stable partition: low pages first, then high, each in its old order, acyclic and NULL-terminated, also when a class is empty |
| `FreeListSplit.SplitKeepsInv` | kern/pmap.c:592-605 | the reordered list keeps the whole allocator invariant |
| `FreeListSplit.Keep` | kern/pmap.c:598 | a class of the split holds exactly the listed pages of that class |
| `FreeListSplit.KeepConcat` | kern/pmap.c:592-605 | in their old order, each page exactly where it stood among those of its class |
| `FreeListSplit.HighIs` | kern/pmap.c:598 | the classes are PDX(page2pa(pp)) below 1 and from 1 on |
| `FreeListSplit.KeepDistinct` | kern/pmap.c:592-605 | the two classes together repeat no page |
| `EnvIds.MaskForms` | kern/env.c:88-213 | ENVX and the generation mask on 32-bit two's-complement patterns are the arithmetic used here |
| `EnvIds.OrForm` | kern/env.c:216 | generation | index is a sum |
| `EnvIds.IdSequence` | kern/env.c:212-216 | the k-th allocation of a slot gives it a positive id with the slot in its low ten bits, the 32-bit wrap and the restart included |
| `EnvIds.IdValue` | kern/env.c:212-216 | the value of that id: the k-th multiple of 4096, starting over after 2^19 - 1 of them, plus the slot |
| `EnvIds.IdsRepeat` | kern/env.c:212-216 | two allocations of one slot share an id if and only if they are a multiple of 2^19 - 1 apart |
| `EnvIds.EnvAllocGood` | kern/env.c:198-251 | env_alloc takes the first free slot exactly when there is one and the address space could be set up, otherwise changes nothing, and keeps the table consistent |
| `EnvIds.EnvAllocExact` | kern/env.c:198-251 | the whole result: -5 without a free slot, -4 without an address space, and then nothing changes; otherwise the head of the list gets its slot's next id and the parent asked for, and no other slot changes |
| `EnvIds.EnvReleaseGood` | kern/env.c:393-396 | the end of env_free keeps the table consistent: the list holds exactly the unused slots, each once |
| `EnvIds.ReleaseFrees` | kern/env.c:393-396 | the slot is unused and heads the list, nothing else changes; its id is refused with -2 and the next successful allocation takes the slot |
| `EnvIds.RunGood` | kern/env.c:198-397 | consistency over every run, with allocation counts that never go down |
| `EnvIds.LiveIdsPositive` | kern/env.c:212-216 | in every reachable table live ids are positive and ENVX gives their slot |
| `EnvIds.StaleIdExact` | kern/env.c:72-106 | after any run, however long, an id that was live is good if and only if its slot is in use and was allocated a multiple of 2^19 - 1 times since (with checkperm, under the permission rule) |
| `EnvIds.StaleIdsRejected` | kern/env.c:72-106 | after any run with fewer than 2^19 - 1 further allocations of the slot, envid2env finds an environment by an old id if and only if that same allocation still lives (and, with checkperm, is the current environment or its child) |
| `EnvIds.StaleIdReturns` | kern/env.c:72-106 | ... and exactly 2^19 - 1 allocations later the old id is good again |
| `EnvIds.FreshGood` | kern/env.c:108-112 | the table env_init's comment describes is consistent and hands out slot 0 first |
| `EnvIds.EnvTable.constructor` | kern/env.c:108-112 | the table env_init's comment describes |
| `EnvIds.LookupExact` | kern/env.c:62-106 | for a non-zero id envid2env succeeds exactly for the one live environment with that id, with checkperm only if it is the current one or its child; otherwise -E_BAD_ENV and a null pointer |
| `EnvIds.ZeroIsCurrent` | kern/env.c:77-81 | id 0 is the current environment, with or without the permission check |
| `EnvIds.EnvTable.Alloc` | kern/env.c:198-251 | in place, exactly EnvIds.EnvAlloc, with return code and slot |
| `EnvIds.EnvTable.Release` | kern/env.c:393-396 | in place, exactly EnvIds.EnvRelease, of which EnvIds.ReleaseFrees says what it does |
| `EnvIds.EnvTable.Lookup` | kern/env.c:72-106 | return code and stored pointer of envid2env, with the permission check |
| `Stabs.StabBinsearch` | kern/kdebug.c:59-103 | the loops carry out Stabs.BinSearch and end for every table, sorted or not |
| `Stabs.LoopTurn` | kern/kdebug.c:65-91 | each turn lowers (right - left, exact hit pending): the range shrinks, or it stays and the key no longer hits |
| `Stabs.SearchIsLocal` | kern/kdebug.c:59-103 | the result depends on no entry outside the initial [left, right], sorted or not |
| `Stabs.LoopBounds` | kern/kdebug.c:65-91 | nothing below the initial left end is stored, and nothing is stored without a match |
| `Stabs.BinSearchIsLinear` | kern/kdebug.c:18-103 | on a sorted range, if the moved key meets no entry, the result is that of a linear scan: the last entry at or below the key and the end just before the next entry, or the old right end |
| `Stabs.BinSearchExact` | kern/kdebug.c:84-89 | for every key the result is the linear scan's if and only if the window left at the first exact hit has no entry with the moved key's value, or, for the key 0xfffffffe, the wrapped search ends on the right entry by accident |
| `Stabs.NoSuccessorKeeps` | kern/kdebug.c:84-89 | in particular it holds when no entry of the type has the value addr, or none has addr + 1 |
| `Stabs.AdjacentStarts` | kern/kdebug.c:84-89 | the concrete failure: two functions one byte apart |
| `Stabs.EmptyRegionMeans` | kern/kdebug.c:39-43 | for every table, sorted or not, and every key, left > right is returned if and only if the range has no entry of the type |
| `Stabs.EmptyRegionTrusted` | kern/kdebug.c:39-43 | so in a sorted range it is right as the sign that no entry contains the key if and only if there is no entry or one at or below the key |
| `Stabs.LastAtMost` | kern/kdebug.c:39-43 | the reference scan returns the last entry of the type with value at most the key |
| `Stabs.DebuginfoEip` | kern/kdebug.c:164-234 | the three searches, the backward search for the file and the argument count carry out Stabs.DebugInfo |
| `Stabs.InfoSearches` | kern/kdebug.c:164-212 | which entries each of the three searches looks at, for which type and with which key; the answer is failure exactly when the file search gives 0 |
| `Stabs.InfoFields` | kern/kdebug.c:172-234 | what the answer's fields are, from the table alone: the function's start, or the address when there is none; the line entry's number; the run of parameter entries right behind the function's, up to rfun; the last file entry in [lfile, lline], or none |
| `Stabs.FileBack` | kern/kdebug.c:213-223 | the nearest file entry at or before the line, none below lfile |
| `Stabs.Params` | kern/kdebug.c:226-232 | the length of the run of parameter entries that follow the function's, short of rfun |
| `Stabs.StrayExact` | kern/kdebug.c:165-169 | in a table whose file entries are sorted, the test for 0 lets a negative lfile through if and only if the table opens with a file entry above the address, or, for the address 0xffffffff, opens with a file entry there and has no other one in its lower half |
| `Stabs.LineSetExact` | kern/kdebug.c:198-212 | the line is set if and only if the region searched holds a line entry; nothing else is returned otherwise |
| `Stabs.NestedExact` | kern/kdebug.c:164-212 | in a table sorted at each level, with an entry at or below the key at each: lfile, lfun, lline and the ends of their regions are the nearest ones if and only if the file is not the table's first entry and in each of the three searches the moved key does no harm (the condition of BinSearchExact) |
| `Stabs.NestedSearches` | kern/kdebug.c:164-212 | under that condition lfile <= lfun <= lline <= rline <= rfun <= rfile, and the function and the line are the greatest starts at or below addr and the function-relative offset |
| `Stabs.NestedFails` | kern/kdebug.c:171-182 | the concrete failure: an entry at or below the key at every level, and a function found that starts above it |
| `Strings.Memmove` | lib/string.c:141-169 | both directions, by words or bytes, under any overlap: the destination becomes the old source bytes and nothing else changes (C99 section 7.21.2.2) |
| `Strings.MemmovePlain` | lib/string.c:187-205 | the plain C version meets the same specification |
| `Strings.MovedUnique` | lib/string.c:141-205 | so word paths and byte paths give the same final memory |
| `Strings.Memset` | lib/string.c:120-139 | by words or bytes, exactly the n bytes become the low byte of c |
| `Strings.Stosb` | lib/string.c:173-185 | the byte loop, also that of the plain C version, meets the same specification |
| `Strings.ReplicateBytes` | lib/string.c:129-130 | each byte of (c<<24)|(c<<16)|(c<<8)|c is c |
| `Console.Cons.Intr` | kern/console.c:395-407 | the loop stores the non-zero characters as bytes at the ring's end, in place, and keeps both indices below 512 |
| `Console.Cons.Getc` | kern/console.c:410-429 | after polling, the oldest readable character, or 0 when the ring looks empty |
| `Console.FeedIsRun` | kern/console.c:395-407 | what an interrupt routine delivers at once is the run of its characters |
| `Console.RingIsFifo` | kern/console.c:385-429 | over every run with at most 511 characters outstanding the ring is exactly a FIFO queue, contents and results |
| `Console.RingIsFifoExact` | kern/console.c:385-429 | the ring's content is the queue's all along a run if and only if at no point more than 511 characters are outstanding |
| `Console.RunAccounts` | kern/console.c:385-429 | over every run all that was written is accounted for: readable, read, or lost 512 at a time |
| `Console.RingHoldsLatest` | kern/console.c:385-429 | over every run the readable content is exactly the last (written - read) mod 512 non-zero characters in order |
| `Console.OverflowLosesAll` | kern/console.c:403-405 | with 511 unread characters one more empties the ring |
| `Numbers.EmitNum` | lib/printfmt.c:35-50 | the recursive printnum sends exactly PrintNum to putch |
| `Numbers.PrintNumPads` | lib/printfmt.c:35-50 | padding then digits; length max(width, number of digits), for every number and width |
| `Numbers.DigitsDenote` | lib/printfmt.c:35-50 | the digits printed are digits of the base and denote the number |
| `Numbers.PrintShows` | lib/printfmt.c:35-50 | what printnum sends, by digit values and characters: the number in the base, in small letters and without a leading zero, behind just the padding it takes to reach the width |
| `Numbers.StrtolLoop` | lib/string.c:239-284 | the loops compute Strtol: value in 32-bit arithmetic and end pointer |
| `Numbers.ReadDigitsTo` | lib/string.c:263-279 | the digit loop reads digits to the first character that is none and its value is theirs, wrapped to 32 bits |
| `Numbers.StrtolReads` | lib/string.c:239-284 | blanks and tabs, a sign or none, the prefix of the base or of base 0, digits by their values 0 to 35 in either case, and a rest that does not go on with one: the signed number, wrapped to 32 bits, and the place of the rest |
| `Numbers.StrtolSplits` | lib/string.c:239-284 | every string has these parts in every base, so this is all strtol does |
| `Numbers.PrintParse` | lib/printfmt.c:35-50 | strtol applied to what printnum printed stops at the end and returns the number as a 32-bit long, for base 2 to 16, every number and width, blank or zero padding (C99 section 7.20.1.4) |
| `Numbers.PrintParseExact` | lib/string.c:239-284 | so print and parse are inverse if and only if the number is below 2^31 |
| `Format.Vprintfmt` | lib/printfmt.c:82-243 | ends for every format, asks for nothing behind its NUL, and emits exactly Text |
| `Format.ScanEscape` | lib/printfmt.c:98-156 | the switch with its gotos collects flags, width and precision as Scan does |
| `FormatLaws.ScanMeans` | lib/printfmt.c:98-156 | every escape is written in pieces up to the first character that is none: the last '-' or '0' says how to pad, l counts, '#' masks, the first number, '*' or '.' of 0 or more is the width and the last number or '*' after it the precision, each '*' takes one argument, signed |
| `FormatLaws.TextUnsigned` | lib/printfmt.c:201-229 | %u, %o and %x write one word, or two with ll, in base 10, 8 and 16, padded to the width |
| `FormatLaws.TextSigned` | lib/printfmt.c:190-198 | %d writes the two's-complement value in base 10, a minus sign before all padding and outside the width |
| `FormatLaws.TextPointer` | lib/printfmt.c:214-220 | %p writes 0x and the word in base 16 |
| `FormatLaws.TextChar` | lib/printfmt.c:158-233 | %c writes the low byte of its argument, %% a percent sign without one |
| `FormatLaws.TextError` | lib/printfmt.c:21-172 | %e writes the text of each of the six codes, of either sign, and the number of any other |
| `FormatLaws.TextString` | lib/printfmt.c:174-193 | %s, character by character: cut to the precision, with '#' the unprintable ones as '?', padded on the left, or with blanks on the right after '-'; "(null)" for 0 |
| `FormatLaws.ReadBackExact` | lib/printfmt.c:190-229 | strtol reads what %d wrote as its argument, for every word, width and flag, if and only if there is no padding, or it is zeros, or blanks and no minus sign, or one '-' before 0 |
| `Format.BackToPercent` | lib/printfmt.c:236-240 | the backward scan of the default case stops behind the escape's own '%' |
| `Format.UnknownVerbatim` | lib/printfmt.c:235-240 | an unrecognised escape comes out exactly as written |
| `Format.EmitString` | lib/printfmt.c:174-188 | the %s loops emit StringText, with width, precision, '-' and '#' |
| `Format.StringLength` | lib/printfmt.c:174-188 | %s emits max(width, min(strlen, precision)) characters |
| `Format.Strnlen` | lib/string.c:21-29 | min(strlen, size), a negative size being a huge one |
| `Format.EmitConversion` | lib/printfmt.c:158-233 | each known conversion emits what Convert says and consumes the same arguments |
| `Printf.PrintBuf.Putch` | lib/printf.c:26-35 | the payloads so far followed by the buffer are the stream so far, idx stays below 255, cnt is the length |
| `Printf.PrintBuf.Vcprintf` | lib/printf.c:37-48 | the sys_cputs payloads concatenate to the whole text, all but the last of 255 characters, and the count is its length |
| `Printf.Cprintf` | lib/printf.c:37-61 | for a format and its arguments, the sys_cputs payloads concatenate to what the format emits and the result is its length |
| `Printf.SprintBuf.Sprintputch` | lib/printfmt.c:261-267 | the buffer holds the first characters of the stream and nothing behind pos changes |
| `Printf.Vsnprintf` | lib/printfmt.c:269-284 | the first min(n-1, length) characters, a NUL, nothing behind it, and the full length as the result; -E_INVAL and no write otherwise (C99 section 7.19.6.5) |
| `Printf.Snprintf` | lib/printfmt.c:269-297 | for a format and its arguments, the buffer holds the first min(n-1, length) characters of what the format emits, a NUL, and nothing else changed |

## Left out

- VmPages.PageInsertCorrect: stated for addresses below UTOP, because counts are not kept above it (kern/pmap.c:401-403); that the counts break there is VmLimits.RemoveAboveUtop and VmLimits.InsertAboveUtop.
- VmPages.PageRemoveCorrect: stated for addresses below UTOP, because counts are not kept above it (kern/pmap.c:401-403); that the counts break there is VmLimits.RemoveAboveUtop and VmLimits.InsertAboveUtop.
- VmRuns.StepSafe: `page_free`, `page_decref` and `pp_ref++` are enabled only for pages the caller holds, and `page_remove` only with the entry present or no page table; what happens otherwise is in the section on comments above.
- Stabs.InfoFields: when the search for the line ends at -1, the C code reads a line number from below the table; the model's line is then 0.
- Stabs.NestedExact: covers tables with an entry at or below the key at each level; the other paths are in Stabs.DebugInfo, with Stabs.StrayExact and Stabs.LineSetExact about them.
- Boot.FreeAvoidsBootMemory: for runs that do not wrap; Boot.BootAllocExact says which those are.
- Printf.PrintBuf.Vcprintf: takes the text; Printf.Cprintf and Printf.Snprintf join it with the formatting, handing the characters on after formatting instead of one by one meanwhile.
- Printf.Vsnprintf: takes the text; Printf.Cprintf and Printf.Snprintf join it with the formatting, handing the characters on after formatting instead of one by one meanwhile.
- Format.Vprintfmt: widths and precisions are unbounded where C's int would overflow; words the caller did not pass read as 0; `%e` gives its text directly instead of recursing through printfmt, and is not modelled for the most negative int.
- FormatLaws.TextError: the C code negates the most negative int, which C leaves undefined; here its number is printed.
- FormatLaws.TextSigned: the C code negates the most negative long long, which C leaves undefined; here its digits are printed.
- Numbers.StrtolReads: overflow wraps at 32 bits, which C leaves undefined.
- Numbers.StrtolLoop: overflow wraps at 32 bits, which C leaves undefined.
- Strings.Memmove: memory is an array, so address arithmetic that wraps at 2^32 is not modelled.
- Strings.Memset: memory is an array, so address arithmetic that wraps at 2^32 is not modelled.
- Kernel.Pmap: one array element is a whole frame, a value; writing a word replaces the frame's value. Physical memory is at most 65536 frames (256 MB). A panic ends the call with the state unspecified.
- VmInv.MakeDirInv: the body of env_setup_vm is unfinished in the source (kern/env.c:181-185), so the directory follows its comment.
- Global pages, paging-structure caches, large pages and the accessed and dirty bits the processor writes into entries (sections 4.3, 4.8 and 4.10 of the Intel SDM Volume 3A): only the cached translations of the loaded directory are modelled, and `lcr3` drops them all. During boot_map_region, before kern_pgdir is loaded, fills are not modelled: the lcr3 that follows drops them.
- mem_init's memory detection, its memset calls and its control-register writes: the state before page_init is `Boot.Fresh`.
- The assertion sequences check_page_alloc, check_page, check_kern_pgdir, check_page_installed_pgdir: single runs; the list split of check_page_free_list is modelled.
- Environment fields other than id, status, parent and link, and the saved registers env_alloc sets up: values no modelled branch reads.
- env_init, region_alloc, load_icode, env_create, env_run, user_mem_check, syscall and trap entry: unfinished or machine state.
- The names debuginfo_eip takes from the string table, and the validity of that table: only entry indices are modelled.
- Devices, port I/O, the keyboard tables and the CGA display: the ring is fed from an arbitrary sequence.
- The kernel's own cprintf count (kern/printf.c:13): the user-side buffer is modelled instead.
