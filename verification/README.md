# A verified model of 2ine

2ine loads OS/2 programs (NE and LX executables) on Linux, emulates the OS/2 API for them, and comes with a debugger.
This project models the parts of it in which algorithms work on shared mutable state, in Dafny, next to the properties
that those parts are relied on for. `dafny verify dfyconfig.toml` checks all of it.

How the model is built: code that changes things step by step is a method, or a class with methods, over the same fields,
buffers and loops; its contract ties the result to a function or relation on values. The theorems are lemmas about those.
The C code's integer widths are written out wherever they matter. Outcomes of the kernel, of memory allocation, of the
disassembler and of message handlers are parameters or arbitrary choices.

| files | what they model |
|---|---|
| `Base` | little-endian integers and byte strings |
| `ExePack2`, `Iterated` | the two page decompressors of the LX loader |
| `ModuleGraph`, `Modules` | the reference-counted module graph: loading with rollback, releasing, forced termination |
| `Ldt`, `StackTiles`, `HugeBlocks` | the LDT selector table, the tiled stack, and the 16-bit segment and huge-block allocator |
| `LxFixups`, `NeFixups` | the two relocation engines |
| `Paths` | DosSetCurrentDir's path normalisation |
| `CommandLine`, `CommandBlock`, `CommandVectors` | the environment and argument block, how it is built and how it is read |
| `Tls`, `EventSem` | thread-local slots and event semaphores of DOSCALLS |
| `Leb128`, `DwarfLines`, `DwarfPasses`, `DwarfSection` | the debugger's line-number reader, up to a whole .debug_line section |
| `DwarfLookup`, `DwarfAddresses` | its lookup from an address to a line, in any table and in that of a parsed section |
| `WindowTree`, `Windows` | the window tree of PMWIN |
| `Ptrace`, `Breakpoints`, `Jumps` | the text-mode debugger's temporary breakpoints, and which jumps it expects |

## Main results

**Decompressors.** `ExePack2.Decompress` succeeds on exactly the sources that are a list of records which fit, and then
leaves the list's LZ77 expansion followed by zeros, self-overlapping matches included; what the buffer held before shows
through exactly when some match has distance 0.

**Modules.** In every reachable state each reference count is the number of dependency slots of live modules naming the
module plus the references held outside, and every module precedes its dependencies in the list. Every load terminates,
circular imports included. A load by name gives the first listed module of that name, and no second copy of it; each
dependency slot of a loaded module holds what such a load gave for that import. A load that fails once it has a record leaves list and counts as they were; one whose header
tests reject a file, its own or an import's, reaches the failure exit before there is a record and frees a pointer that was
never set, and exactly then. Termination frees every module once, runs every terminator before those of the modules it
depends on, and leaves nothing.

**Selectors.** A linear address survives the conversion to 16:16 and back exactly when it is 0 or at least 64K, and the
pointer keeps its meaning until its selector is released. The slots of the huge-block arena are at all times exactly the
disjoint union of the live blocks. Tiling a stack works, keeps the table tiled and can be undone under exact conditions.

**Relocations.** An LX fixup stream has one reading as a list of records, and interpreting it is folding their stores; if
no two fields of a page overlap, each field reads back as the address, selector, offset or distance its record refers to,
computed from object or export, operand and additive, and all other bytes are unchanged. NE chains are walked to their end
and patched in place, each cell then holding byte, segment, offset or both of its target; additive fields take on the
target, and no other byte changes.

**Paths.** The in-place normalisation is the stack fold over path components. The directory stays normalised in all cases
but one: a bare drive letter outside the drive's root leaves a separator behind.

**Arguments and environment.** Of all argument lists, exactly those without empty arguments, without quotes, and without
backslashes and newlines in arguments with blanks come back unchanged. The reader's vector is intact exactly when the
command line has no more words than blanks and one, which quotes can break without a single blank: then a pointer
overwrites the program name, or leaves the allocation. Argument lists without quotes never get there. The environment comes
back followed by IS_2INE, except that an empty one comes back without it.

**Line numbers.** Both passes consume a well-formed section exactly, the first pass's count is always enough, and the
table holds the section's rows and zero rows after them. They are the DWARF 2 matrix exactly when no row carries a drift
from DW_LNS_const_add_pc. Outside segment 0 the lookup finds the one row whose half-open range contains the address, in
the table of every parsed section whose sequences are closed, ascending and disjoint; in segment 0 the zero rows answer too.
The name it gives is that of the file which the row's own unit has under the row's file register.

**Windows.** Destroying a window clears exactly its subtree and leaves every other window's place alone; creating one puts
it first, last or right after the sibling asked for, and only a window inserted behind its own handle, among siblings, falls out of the tree.

**Breakpoints, semaphores, thread-local slots.** At every prompt of a still running debuggee no breakpoint is armed and
every byte is the program's own, as long as ptrace writes succeed. In every interleaving posts and resets alternate, waits
are answered truthfully and no wake-up is lost. Closing a semaphore is refused exactly while a thread waits if and only if
the waiting field, which creation does not set, started at 0. The slot mask is always the union of the recorded blocks.

Where the code and what it is meant to do part ways, the code is modelled and the exact condition is proved:
`Ldt.FindKeepsTiled`, `Paths.ChdirKeepsNormal`, `CommandLine.RoundTrip`, `CommandVectors.CalcArgv`,
`CommandVectors.CalcEnvp`, `CommandBlock.BuildBlock`, `Modules.Loader.LoadModule`, `DwarfSection.SectionIsDwarf`,
`DwarfLookup.FoundIff`, `DwarfLookup.PaddingWins`, `Windows.Anchor.InsertWindow`, `Windows.Anchor.WinDestroyWindow`,
`EventSem.ClosesRightIff`, `Tls.Slots.Take`, `Jumps.JecxzAgrees`, `StackTiles.UnstackUndoes`.

## Model

| member | source | states |
|---|---|---|
| `ExePack2.LinearMove` | lx_loader.c:298-305 | the forward byte copy leaves the byte-at-a-time copy of the last `len` bytes from distance `to - from`, reading what it has just written; nothing after it changes |
| `ExePack2.UnpackRun` | lx_loader.c:326-348 | case 0 succeeds exactly when a no-op, byte-run or literal record is in front and fits, and then appends its bytes |
| `ExePack2.UnpackShort` | lx_loader.c:350-366 | a 2+2+3+9 bit match record is accepted exactly when it is whole and fits, and then appends its literals and its match |
| `ExePack2.UnpackMid` | lx_loader.c:368-380 | a 2+2+12 bit match record is accepted exactly when it is whole and fits, and then appends its match |
| `ExePack2.UnpackLong` | lx_loader.c:382-399 | a 2+4+6+12 bit match record is accepted exactly when it is whole and fits, and then appends its literals and its match |
| `ExePack2.CopyLeadAndMatch` | lx_loader.c:357-365 | literals followed by a back reference are accepted exactly when source, room and distance allow |
| `ExePack2.Decompress` | lx_loader.c:308-410 | for every source and buffer the loop ends in bounds, with the result and the final buffer of the reference decoder |
| `ExePack2.ReadPacked` | lx_loader.c:324-399 | reading a packed record gives the record back, whatever follows |
| `ExePack2.PackedRead` | lx_loader.c:324-399 | a record read is exactly the bytes in front, so the format has no second reading |
| `ExePack2.RecordFields` | lx_loader.c:350-390 | where the tag, count, length and distance fields of a match record lie in its words |
| `ExePack2.UnpackExpands` | lx_loader.c:319-409 | every record list that fits is decoded to its LZ77 expansion followed by zeros |
| `ExePack2.ExpandAdds` | lx_loader.c:319-409 | the expansion is reached record by record: each adds its own bytes, and then bytes each equal to the one `dist` before it |
| `ExePack2.UnpackParses` | lx_loader.c:319-409 | every source that decodes is such a list |
| `ExePack2.UnpackSucceeds` | lx_loader.c:319-409 | decoding succeeds if and only if the source is a fitting record list |
| `ExePack2.CopyRepeats` | lx_loader.c:298-305 | an overlapping match repeats the last `dist` bytes with period `dist` |
| `ExePack2.StaleLeaks` | lx_loader.c:357-374 | a match of distance 0 leaks one byte of the old buffer to the output |
| `ExePack2.ExpansionDetermined` | lx_loader.c:357-409 | the output is independent of the old buffer if and only if no match of non-zero length has distance 0 |
| `Iterated.Fill` | lx_loader.c:425-429 | the inner loop stores the block `n` times |
| `Iterated.DecompressIterated` | lx_loader.c:412-440 | for every source the loop ends in bounds with the result and buffer of the reference decoder |
| `Iterated.DecodeExpands` | lx_loader.c:414-439 | packed blocks decode to their repetitions and zeros exactly when they fit |
| `Iterated.PackedLaid` | lx_loader.c:415-424 | where a block's repeat count, length and data lie in the packed source |
| `Iterated.RepeatAt` | lx_loader.c:425-429 | each byte of a repetition, by its position modulo the block |
| `Iterated.DecodeParses` | lx_loader.c:414-439 | every source that decodes is a list of packed blocks |
| `ModuleGraph.RetireInv` | lx_loader.c:1204-1226 | unlinking an unreferenced module keeps counts, links and order, its dependency slots becoming references still to be dropped |
| `ModuleGraph.BuryInv` | lx_loader.c:1239-1261 | freeing the record of a module that has dropped its dependencies keeps the invariant |
| `ModuleGraph.Recount` | lx_loader.c:1204-1207 | changing one count together with the references held outside keeps the invariant |
| `ModuleGraph.LiveTransfers` | lx_loader.c:1963-1980 | two states of the graph with the same dependencies and outside references have the same live modules |
| `Modules.Loader.constructor` | lib2ine.c:33 | a loader without modules, where every count is right |
| `Modules.Loader.Alloc` | lx_loader.c:1683-1715 | a new record with one reference, empty dependency slots, not in the list |
| `Modules.Loader.Prepend` | lx_loader.c:2043-2049 | a ready module goes to the front of the list, with its links |
| `Modules.Loader.Free` | lx_loader.c:1196-1262 | one reference fewer; at none the module is unlinked, its dependencies are released and its record is freed; the invariant holds again and the dead only grow |
| `Modules.Loader.ReleaseAll` | lx_loader.c:1239-1241 | the dependencies of a dying module are released, last slot first |
| `Modules.Loader.Detach` | lx_loader.c:1209-1228 | terminator and unlinking: the module leaves the list and stops counting as live |
| `Modules.Loader.FindLoaded` | lx_loader.c:2589-2596 | the first module of the list with the name, none exactly if no listed module has it |
| `Modules.Loader.LoadByName` | lx_loader.c:2587-2625 | if a listed module has the name, the first such one, its count one higher and nothing else changed or read; else a new module of the library file, named as that file is, or the native replacement under the given name; a failure leaves list and counts as before, unless a file read on the way was rejected by its header, which is wild |
| `Modules.TestHeader` | lx_loader.c:1657-1676 | the tests before allocation, on type, loadability and the presence of an executable |
| `Modules.AcceptedLibrary` | lx_loader.c:1657-1676 | as an import a file is accepted if and only if the masked flags say DLL and nothing else |
| `Modules.RejectedImports` | lx_loader.c:1657-1676 | a program among the imports, and a 16-bit library marked not loadable, pass the first checks and are rejected |
| `Modules.AcceptedProgram` | lx_loader.c:1657-1676 | as the program a file is accepted if and only if none of the masked flags is set |
| `Modules.Loader.LoadImport` | lx_loader.c:1971-1980 | one dependency slot is filled with what a load by that import's name gives, whether found in the list or new |
| `Modules.Loader.LoadModule` | lx_loader.c:1655-2057 | loading with imports in order: on success the module is new, ready, referenced and an executable or not as its flags say, and each dependency slot holds what a load by that import's name gives at that moment; a failure leaves nothing, except that it frees an unset pointer if and only if a header read was rejected, with loadable libraries if and only if the own header was; it terminates by depth and imports left |
| `Modules.Loader.Finish` | lx_loader.c:2036-2052 | a loaded module is ready, and in front of the list if it is a library |
| `Modules.Loader.FailLoad` | lx_loader.c:2054-2057 | the failure exit restores the state from before the load |
| `Modules.Loader.LoadByPath` | lx_loader.c:2502-2538 | a load from outside adds one handle on a new module with its imports, or rolls back, or is wild exactly when a header was rejected |
| `Modules.Loader.LoadLibrary` | lx_loader.c:2587-2630 | a load by module name adds one handle on the first listed module of that name, and else on a new one served for it, or rolls back, or is wild exactly when a header was rejected, never with loadable libraries |
| `Modules.Loader.Release` | lx_loader.c:1196-1207 | giving a handle back keeps the invariant |
| `Modules.Loader.ForceHead` | lx_loader.c:717-721 | a forced round frees a live module, which no live module depends on |
| `Modules.Loader.Terminate` | lx_loader.c:703-733 | ends with every record freed, each module retired once, the terminators of exactly the initialised libraries run, in order, no references left and the whole invariant intact |
| `Modules.TerminatorsRun` | lx_loader.c:1209-1228 | of two retired libraries the one retired first also has its terminator run first |
| `Modules.Undone` | lx_loader.c:1963-1980 | dropping the reference to a load in progress undoes all of it: list, head, executable and every older record |
| `Modules.UndoneLive` | lx_loader.c:1963-1980 | after a failed load exactly the modules live before it are live, and their dependency slots are as before |
| `Modules.RetiringGood` | lx_loader.c:1204-1226 | retiring keeps the whole loader invariant: counts, order, terminators run, one executable |
| `Modules.HeadUnreferenced` | lx_loader.c:710-721 | the module at the front of the list is in no live module's dependency slots |
| `Modules.ReachableLive` | lx_loader.c:1239-1241 | along every chain of dependencies from a live module all modules are live |
| `Modules.RetiredBeforeDependencies` | lx_loader.c:1209-1241 | a module leaves strictly before everything it depends on, however indirectly |
| `Modules.SettledAfter` | lx_loader.c:1196-1262 | after a release the remaining handles still name listed modules or the executable |
| `Modules.NothingLeft` | lx_loader.c:703-733 | an empty list means every record is freed and every module has left |
| `Ldt.Selectors.AllocateSelector` | lx_loader.c:448-472 | a slot is filled exactly when it was free and the kernel agrees; otherwise nothing changes |
| `Ldt.Selectors.Scan` | lx_loader.c:501-517 | the full scan finds the first slot mapping the address, else the last free one |
| `Ldt.Selectors.FindSelector` | lx_loader.c:475-552 | result and table are those of the specification of the search |
| `Ldt.Selectors.FreeSelector` | lx_loader.c:555-571 | exactly that slot becomes free, if the kernel agrees |
| `Ldt.CoverUnique` | lx_loader.c:488-511 | no address is mapped by two slots |
| `Ldt.FindMeans` | lx_loader.c:475-552 | fast path and scan agree: the slot found maps the address's tile, and is new only if no slot did |
| `Ldt.FindSucceeds` | lx_loader.c:475-552 | a selector is found if and only if the address is at least 4096 and is mapped, or the kernel agrees and some slot is free |
| `Ldt.FindChooses` | lx_loader.c:482-541 | a new mapping takes the slot the address's upper half names if that is free, and else the highest free one |
| `Ldt.RoundTrip` | lx_loader.c:573-599 | a linear address comes back from 16:16 if and only if it is 0 or at least 64K |
| `Ldt.FindKeepsTiled` | lx_loader.c:475-552 | a search keeps tiles distinct if and only if it does not map the last 64K again |
| `Ldt.RunTiled` | lx_loader.c:475-571 | any run of finds and releases below the last 64K keeps tiles aligned and distinct |
| `Ldt.RunKeeps` | lx_loader.c:475-571 | a slot keeps its tile through every run that does not release it |
| `Ldt.PointerLasts` | lx_loader.c:573-599 | a 16:16 pointer means its linear address until its selector is released, over every run |
| `Ldt.UnpackPack` | lx_loader.c:442-445 | a 16:16 pointer is eight times the selector plus seven, and the offset; both can be taken out again |
| `StackTiles.InitStackSegments` | lx_loader.c:613-637 | tiling and untiling change exactly the slots of the stack that are free, or in use, and not refused |
| `StackTiles.TilesOfStack` | lx_loader.c:616-623 | the slots visited are those of the 64K pieces the stack's bytes lie in |
| `StackTiles.StackIsDirect` | lx_loader.c:607-637 | a stack address is then found through the slot its upper half names, if and only if that slot was free or already held its tile |
| `StackTiles.StackKeepsTiled` | lx_loader.c:613-637 | tiles stay distinct if and only if no added tile is in some other slot |
| `StackTiles.UnstackUndoes` | lx_loader.c:613-637 | untiling restores the table if and only if the stack's slots were free before |
| `HugeBlocks.Dos16.AllocSegment` | lx_loader.c:742-764 | the next 64K of the arena in a free slot, or no slot at all |
| `HugeBlocks.Dos16.FreeSegment` | lx_loader.c:766-775 | the segment's slot becomes free |
| `HugeBlocks.Dos16.FreeRun` | native/doscalls.c:3446-3459 | a run of slots becomes free |
| `HugeBlocks.Dos16.AllocSeg` | native/doscalls.c:3380-3413 | a one-slot block joins the ledger, or nothing changes |
| `HugeBlocks.Dos16.AllocHuge` | native/doscalls.c:3417-3469 | a block of consecutive slots on consecutive 64K joins the ledger; a failure leaves no slot behind |
| `HugeBlocks.Dos16.FreeSeg` | native/doscalls.c:3484-3501 | exactly the block's slots become free |
| `HugeBlocks.LedgerAdd` | native/doscalls.c:3440-3464 | a new run from the untouched arena keeps the blocks disjoint and complete |
| `HugeBlocks.LedgerRemove` | native/doscalls.c:3484-3501 | taking a block out keeps the blocks disjoint and complete, its slots free |
| `HugeBlocks.FindFresh` | lx_loader.c:742-764 | a segment of the untouched arena gets a tile of its own in a free slot |
| `HugeBlocks.NextSelector` | native/doscalls.c:3417-3469 | adding 8 to the selector inside a huge block moves the linear address by 64K |
| `LxFixups.ReadRecord` | lx_loader.c:1359-1554 | the fixed part of a record comes off the stream field by field, and the source list or the next record is what remains |
| `LxFixups.DoFixup` | lx_loader.c:1320-1346 | the size switch stores the low byte, word, double word or pointer at the place and nothing else; other sizes end the process |
| `LxFixups.FixSource` | lx_loader.c:1556-1573 | one field takes the value, or the distance from its end if self-relative |
| `LxFixups.FixSources` | lx_loader.c:1556-1573 | one store per source offset, consuming exactly the list |
| `LxFixups.SourceType` | lx_loader.c:1371-1395 | the switch on the source type gives the field's size and the code segment of a 16:32 pointer |
| `LxFixups.InternalTarget` | lx_loader.c:1430-1445 | an internal target is the object's address plus offset, or the selector, far pointer or offset of its alias; what this is in numbers, `FieldIsRight` says |
| `LxFixups.ImportTarget` | lx_loader.c:1464-1533 | an import is the export's address, or the selector, far pointer or offset of its object's alias; what this is in numbers, `FieldIsRight` says |
| `LxFixups.FixRecord` | lx_loader.c:1359-1574 | one record leaves memory as its meaning says and the stream at the next record |
| `LxFixups.FixupPage` | lx_loader.c:1348-1575 | a page's records fold over object memory in order, exactly if all have supported kinds and targets; then, if fields do not overlap, each holds its object's or export's address, or selector and offset, plus operand and additive, or the distance to it, and every other byte is as before |
| `LxFixups.PageSucceeds` | lx_loader.c:1348-1575 | a page is applied to its end if and only if no record has an unsupported kind or target, and every field lies in memory |
| `LxFixups.RecordFront` | lx_loader.c:1359-1554 | the record at the front of a stream can be read in one way only |
| `LxFixups.StreamUnique` | lx_loader.c:1348-1575 | a stream has one reading as a record list |
| `LxFixups.SerialLayout` | lx_loader.c:1359-1560 | where each field of a record lies in the stream, as its flags place it |
| `LxFixups.SelfRelative` | lx_loader.c:1556-1573 | a self-relative fixup stores the value that, added to the address after its field, gives the target modulo 2^32 |
| `LxFixups.PageElsewhere` | lx_loader.c:1348-1575 | a byte in no field is unchanged by a whole page |
| `LxFixups.PageAt` | lx_loader.c:1348-1575 | if fields do not overlap, every byte of every field is the one its own record stores |
| `LxFixups.FieldMeans` | lx_loader.c:1348-1575 | if fields do not overlap, every field reads back as the address, selector, offset, far pointer or distance its record refers to, plus additive |
| `LxFixups.FieldIsRight` | lx_loader.c:1348-1575 | and in numbers: (object address + operand + additive) modulo 2^32 in the bits of its kind, selector 8 * alias + 7, the export's address, or 0 for a bad module |
| `LxFixups.PageIsRight` | lx_loader.c:1348-1575 | the same for all fields of a page, with all bytes outside them unchanged |
| `LxFixups.OrBits` | lx_loader.c:1442-1443 | the combination of selector and offset has a bit set exactly where one of them has |
| `NeFixups.StorePatch` | lx_loader.c:2150-2156 | the source type decides which bytes of the target are stored |
| `NeFixups.WalkChain` | lx_loader.c:2147-2157 | the destructive walk over a chain of separate cells ends and stores the target at every cell |
| `NeFixups.AddPatch` | lx_loader.c:2137-2145 | an additive fixup adds to the field in its own width |
| `NeFixups.FixupSegment` | lx_loader.c:2060-2162 | the records of a segment, each on its own cells, applied in order: every cell of a chain holds its target's low byte, segment, offset, or both, every additive field has gained them, and no other byte has changed |
| `NeFixups.PatchedBytes` | lx_loader.c:2147-2157 | every cell holds the patch and every other byte is unchanged |
| `NeFixups.ChainKept` | lx_loader.c:2147-2149 | a chain depends on the links in its cells only |
| `NeFixups.SegmentElsewhere` | lx_loader.c:2060-2162 | over a whole segment a byte outside all cells is unchanged |
| `NeFixups.SegmentAt` | lx_loader.c:2060-2162 | a byte of a chain cell holds its own fixup's patch, whatever the other fixups do |
| `NeFixups.CellHolds` | lx_loader.c:2147-2156 | after a whole segment every chain cell reads as target modulo 2^8, target over 2^16, target modulo 2^16, or both halves, by source type 0, 2, 5, 3 |
| `NeFixups.SegmentSum` | lx_loader.c:2060-2162 | an additive field holds its original value plus the target, half by half, whatever the other fixups do |
| `NeFixups.SegmentIsDone` | lx_loader.c:2060-2162 | the same for all records, additive ones and the bytes outside included |
| `Paths.StripDoubles` | native/doscalls.c:2879-2884 | doubled separators go, components and a trailing separator stay |
| `Paths.ParentStart` | native/doscalls.c:2905-2911 | the backward scan finds the start of the parent's name |
| `Paths.DumpParent` | native/doscalls.c:2899-2914 | a ".." element goes together with its parent, or alone at the root |
| `Paths.StripElements` | native/doscalls.c:2891-2920 | the loop over the elements keeps their meaning and ends because the text after the cursor shrinks |
| `Paths.FinishElements` | native/doscalls.c:2922-2939 | the last element, which no separator follows |
| `Paths.Normalize` | native/doscalls.c:2879-2939 | the result is the stack fold of the components |
| `Paths.FoldConcat` | native/doscalls.c:2879-2939 | resolving a path in two parts is resolving it at once |
| `Paths.ChdirMeans` | native/doscalls.c:2815-2952 | the new directory is the fold of the old one's components and the name's, but for a bare drive letter |
| `Paths.ChdirKeepsNormal` | native/doscalls.c:2815-2952 | the directory stays normalised if and only if the name is not a bare drive letter outside the root |
| `Paths.ChdirComposes` | native/doscalls.c:2815-2952 | going to a\b is going to a, then to b |
| `Paths.DownThenUp` | native/doscalls.c:2815-2952 | ".." returns from the directory just entered |
| `Paths.Disks.Drive` | native/doscalls.c:2856-2865 | a letter in either case and a colon name the drive and are taken off; otherwise it is the current drive |
| `Paths.Disks.SetCurrentDir` | native/doscalls.c:2815-2952 | error codes, and exactly that drive's directory changes; without memory for its name the process has entered a directory that no drive records |
| `CommandBlock.WriteEscaped` | lib2ine.c:230-235 | an argument is copied with a backslash before each backslash and newline |
| `CommandBlock.WriteToken` | lib2ine.c:221-240 | an argument with blanks is quoted and escaped, others are copied |
| `CommandBlock.WriteArguments` | lib2ine.c:220-244 | the arguments after the program name, one space between them |
| `CommandBlock.WriteVariable` | lib2ine.c:187-200 | PATH is replaced outside subprocesses, IS_2INE dropped, LIBPATH remembered |
| `CommandBlock.WriteEnvironment` | lib2ine.c:185-207 | the variables kept, in order, each with its terminator |
| `CommandBlock.KeptAt` | lib2ine.c:185-207 | wherever it stands, PATH is replaced outside subprocesses only, IS_2INE is dropped and every other variable is kept |
| `CommandBlock.LibPathLast` | lib2ine.c:192-193 | the library path is the value of the last LIBPATH |
| `CommandBlock.LibPathNone` | lib2ine.c:206-207 | or unset without one |
| `CommandBlock.BuildBlock` | lib2ine.c:180-246 | environment, program name, and program name with command line, where the pointers say, if and only if all of it fits 64K; otherwise it runs out of its memory |
| `CommandBlock.LongArgument` | lib2ine.c:172-183 | one argument of 64K is enough for that |
| `CommandBlock.ArgumentsSurvive` | lib2ine.c:216-246 | arguments that survive have no more words than slots and read back as the original list |
| `CommandLine.RoundTrip` | native/doscalls.c:1418-1502 | for all argument lists, the words of the command line are the arguments if and only if each is non-empty, has no quote, and no backslash or newline beside a blank |
| `CommandLine.EmptyFirst` | native/doscalls.c:1418-1502 | no argument list that begins with an empty argument comes back |
| `CommandLine.WordsOneQuote` | native/doscalls.c:1475-1489 | a word holds one quote at most |
| `CommandLine.WordCount` | native/doscalls.c:1418-1502 | without quotes, every empty argument costs a word |
| `CommandLine.FirstWord` | native/doscalls.c:1464-1490 | an argument without quotes gives back one word, escaped if it has blanks |
| `CommandLine.QuotedArgument` | native/doscalls.c:1475-1489 | an argument with a quote never comes back as it was |
| `CommandLine.WordsFit` | native/doscalls.c:1431-1450 | words and terminators never exceed the characters allocated |
| `CommandLine.BlanksBetween` | native/doscalls.c:1431-1450 | an argument list has no more arguments than blanks and one in its command line |
| `CommandVectors.CountBlanks` | native/doscalls.c:1431-1437 | the sizing loop counts blanks and characters of the command line |
| `CommandVectors.FindQuote` | native/doscalls.c:1477-1478 | the closing quote, or the end |
| `CommandVectors.SkipSpace` | native/doscalls.c:1459-1460 | the text from the next non-blank |
| `CommandVectors.AddString` | native/doscalls.c:1454-1456 | one more string at the end of a vector, all earlier ones untouched while slots last; beyond them the first string is overwritten, and the pointer is stored exactly if it lies in the allocation |
| `CommandVectors.ReadWords` | native/doscalls.c:1459-1498 | for every command line the loop leaves the program name and the words, in the slots or overrunning them, or stores a pointer outside |
| `CommandVectors.CalcArgv` | native/doscalls.c:1418-1502 | for every command line: a pointer to each word and a null pointer can be read back if and only if there are at most blanks plus one words; a pointer leaves the allocation if and only if the words and the null pointer do not fit it even as bare pointers; an error for an empty name |
| `CommandVectors.QuotesOutrunSlots` | native/doscalls.c:1431-1450 | an argument with quotes and no blank makes more words than the slots allow |
| `CommandVectors.QuoteFreeFits` | native/doscalls.c:1431-1450 | the slots are enough for every argument list without quotes |
| `CommandVectors.MeasureEnv` | native/doscalls.c:1372-1381 | the sizing loop counts the variables and their characters |
| `CommandVectors.CopyEnv` | native/doscalls.c:1393-1406 | every variable, in order, inside the allocation |
| `CommandVectors.CalcEnvp` | native/doscalls.c:1358-1416 | the variables followed by IS_2INE, or an empty vector for an empty block |
| `Tls.MaskBits` | native/doscalls.c:2591-2606 | the shifted mask covers the slots from `i` on, as far as there are 32 |
| `Tls.Unused` | native/doscalls.c:2607 | the search's bit test holds exactly when no bit of the mask is in use |
| `Tls.AllUsed` | native/doscalls.c:2640 | the assertion before freeing holds exactly when all bits are in use |
| `Tls.TestIsVacant` | native/doscalls.c:2606-2609 | the bit test accepts exactly the ranges in which no block has a slot |
| `Tls.VacantStart` | native/doscalls.c:2614 | the assertion before allocating holds: no block starts in a vacant range |
| `Tls.Allocated` | native/doscalls.c:2614-2616 | allocating keeps the mask the disjoint union of the blocks |
| `Tls.Freed` | native/doscalls.c:2637-2643 | freeing keeps the mask the disjoint union of the blocks, and its assertion holds |
| `Tls.FreeUndoesAlloc` | native/doscalls.c:2614-2643 | freeing a new block gives back mask and sizes |
| `Tls.Slots.FindSlot` | native/doscalls.c:2605-2609 | the first vacant range, or none |
| `Tls.Slots.Take` | native/doscalls.c:2613-2617 | recording the block; the assertion fails exactly for an empty block where another starts |
| `Tls.Slots.Alloc` | native/doscalls.c:2581-2624 | first fit; every failure leaves mask and blocks alone |
| `Tls.Slots.Free` | native/doscalls.c:2626-2652 | exactly the block at the slot goes; anything else is an invalid parameter |
| `EventSem.StepInv` | native/doscalls.c:1646-1772 | every step of every thread keeps the invariant |
| `EventSem.RunInv` | native/doscalls.c:1646-1772 | every run of any number of threads keeps the invariant |
| `EventSem.StepMissed` | native/doscalls.c:1681-1688 | a post and its broadcast leave no thread asleep on a posted semaphore |
| `EventSem.StepExclusive` | native/doscalls.c:1655-1664 | the mutex is held by exactly the thread in a critical section |
| `EventSem.PostsAndResetsAlternate` | native/doscalls.c:1646-1691 | in every run successful posts and resets strictly alternate, starting against the initial state |
| `EventSem.WaitingIsCount` | native/doscalls.c:1708-1751 | `waiting` is its initial value plus the threads between counting themselves in and out |
| `EventSem.WaitsAreTruthful` | native/doscalls.c:1693-1754 | a wait that returned NO_ERROR saw the semaphore posted, in that call, under the mutex; a timed-out one saw it reset; an untimed one does not time out |
| `EventSem.QueriesAreTruthful` | native/doscalls.c:1756-1772 | a query reports the flag as it was at some moment of the call, under the mutex |
| `EventSem.ChangesAreTruthful` | native/doscalls.c:1646-1691 | a post or reset reports success exactly for the change it made itself, and otherwise that the flag was already so when seen under the mutex, in that call |
| `EventSem.NoneAsleep` | native/doscalls.c:1681-1722 | with the semaphore posted and the mutex free no thread sleeps |
| `EventSem.SomeoneGoesOn` | native/doscalls.c:1646-1772 | no deadlock: if a thread is in a call and awake, some thread can go on |
| `EventSem.CloseRefused` | native/doscalls.c:1774-1796 | in every run Close is refused if and only if the field's initial value plus the threads inside is positive |
| `EventSem.CloseIsBusy` | native/doscalls.c:1774-1796 | closing is refused exactly while a thread waits, if the field started at 0 |
| `EventSem.ClosesNever` | native/doscalls.c:436-456 | with the unset field above 0 a run reaches a refusal without any waiter |
| `EventSem.ClosesUnderSleeper` | native/doscalls.c:436-456 | with the unset field below 0 a run reaches a successful Close under a sleeping thread |
| `EventSem.ClosesRightIff` | native/doscalls.c:436-456 | Close is refused exactly while a thread waits, in all runs of any number of threads, if and only if the field started at 0 |
| `Leb128.ReadULEB` | debugger/dwarf_info.c:114-127 | the value and the rest of the stream, as the decoding function says |
| `Leb128.ReadSLEB` | debugger/dwarf_info.c:129-144 | the value, sign-extended and read as a signed 32-bit integer, and the rest of the stream |
| `Leb128.LoopUEncoded` | debugger/dwarf_info.c:114-127 | from any shift and accumulator, decoding an encoded value adds it modulo 2^32 |
| `Leb128.LoopSEncoded` | debugger/dwarf_info.c:129-144 | from any shift and accumulator, decoding an encoded signed value adds it modulo 2^32, sign bits included |
| `Leb128.DecodeU` | debugger/dwarf_info.c:114-127 | decoding inverts encoding for all unsigned 32-bit values |
| `Leb128.DecodeS` | debugger/dwarf_info.c:129-144 | decoding inverts encoding for all signed 32-bit values |
| `DwarfLines.CountBounds` | debugger/dwarf_info.c:368-405 | the first pass counts at least as many rows as the second appends |
| `DwarfLines.StepDrifts` | debugger/dwarf_info.c:466-565 | one instruction keeps the reader's registers at the DWARF 2 machine's plus the drift, and its rows agree exactly when the drift vanishes |
| `DwarfLines.RowsAreDwarf` | debugger/dwarf_info.c:466-565 | the rows of a program are the DWARF 2 matrix if and only if no row carries a drift |
| `DwarfLines.UnitIsDwarf` | debugger/dwarf_info.c:462-565 | a unit starts without drift, so its rows are the matrix if and only if none of its rows gathers one |
| `DwarfLines.RowsShow` | debugger/dwarf_info.c:466-565 | every row shows address, line, segment and end flag of the registers when it was appended |
| `DwarfLines.InstructionBytes` | debugger/dwarf_info.c:466-565 | the opcode and operand bytes of each instruction |
| `DwarfLines.WithoutConstAdd` | debugger/dwarf_info.c:534-538 | a program without DW_LNS_const_add_pc has no drift |
| `DwarfLines.ConstAddHarms` | debugger/dwarf_info.c:534-538 | a row after at least one and fewer than 2^24 DW_LNS_const_add_pc in its sequence is wrong |
| `DwarfPasses.SkipStandard` | debugger/dwarf_info.c:387-401 | pass 1 skips exactly a standard opcode's operands |
| `DwarfPasses.OpenExtended` | debugger/dwarf_info.c:470-472 | length, sub-opcode and payload of an extended instruction |
| `DwarfPasses.CountRows` | debugger/dwarf_info.c:363-405 | pass 1 consumes a program exactly and counts its row instructions |
| `DwarfPasses.RunStandard` | debugger/dwarf_info.c:502-549 | pass 2 of a standard opcode: registers, row and stream as the reader's step says |
| `DwarfPasses.RunExtended` | debugger/dwarf_info.c:468-501 | pass 2 of an extended instruction: registers, row and stream as the reader's step says, whatever its payload |
| `DwarfPasses.RunSpecial` | debugger/dwarf_info.c:550-564 | pass 2 of a special opcode: line and address advance and one row |
| `DwarfPasses.FillRows` | debugger/dwarf_info.c:462-565 | pass 2 stores all rows of a program from its index on and changes nothing else; the guard cuts none |
| `DwarfSection.SkipField` | debugger/dwarf_info.c:282-287 | a LEB128 field is skipped, whatever its value |
| `DwarfSection.CountUnitFiles` | debugger/dwarf_info.c:260-292 | the number of a unit's files |
| `DwarfSection.ParseUnitFiles` | debugger/dwarf_info.c:297-336 | the unit's names appended to the global table, its numbers mapped to global ones; whose names these are, `SectionNamed` says |
| `DwarfSection.ReadHeader` | debugger/dwarf_info.c:442-447 | the prologue fields |
| `DwarfSection.UnitLayout` | debugger/dwarf_info.c:346-361 | where length, version, prologue length, prologue and program lie in a unit |
| `DwarfSection.PrologueLayout` | debugger/dwarf_info.c:440-447 | where the prologue's fields and tables lie |
| `DwarfSection.CountUnit` | debugger/dwarf_info.c:356-405 | rows and files of a unit |
| `DwarfSection.FillUnit` | debugger/dwarf_info.c:440-565 | a unit's names and rows, files numbered after those of earlier units |
| `DwarfSection.CountAll` | debugger/dwarf_info.c:346-408 | pass 1 over all units |
| `DwarfSection.FillAll` | debugger/dwarf_info.c:432-568 | pass 2 over all units: every row and every name, in order |
| `DwarfSection.ParseDebugLine` | debugger/dwarf_info.c:338-571 | the table holds the section's rows and then zero rows; no table without file names |
| `DwarfSection.SectionCountBounds` | debugger/dwarf_info.c:346-424 | the allocation is enough for the section |
| `DwarfSection.SectionIsDwarf` | debugger/dwarf_info.c:432-568 | the section's rows are the DWARF 2 matrices of its units if and only if no unit has a drifted row |
| `DwarfSection.UnitNamed` | debugger/dwarf_info.c:312-332 | a row of a unit with file register f has the name of the unit's f-th file, and none if there is no such file |
| `DwarfSection.SectionNamed` | debugger/dwarf_info.c:297-332 | and in a whole section, each row that of its own unit |
| `DwarfSection.NoDriftRenumbered` | debugger/dwarf_info.c:449-456 | numbering files through does not change which rows drift |
| `DwarfLookup.FindEnd` | debugger/dwarf_info.c:973-980 | the address of the next end of sequence |
| `DwarfLookup.AddrToLine` | debugger/dwarf_info.c:955-1000 | line and name of the candidate with the highest address, the last on ties; nothing exactly when there is no candidate |
| `DwarfLookup.FoundIff` | debugger/dwarf_info.c:955-1000 | something is found if and only if a sequence covers the address, or the segment is 0, there is padding and the address is not the last |
| `DwarfLookup.FoundIffCovered` | debugger/dwarf_info.c:955-1000 | outside segment 0 something is found if and only if a sequence covers the address |
| `DwarfLookup.LookupMeans` | debugger/dwarf_info.c:955-1000 | outside segment 0, on disjoint sequences, a row is the answer if and only if its half-open range contains the address |
| `DwarfLookup.ContainsUnique` | debugger/dwarf_info.c:955-1000 | on disjoint sequences only one row's range contains an address |
| `DwarfLookup.PaddingWins` | debugger/dwarf_info.c:429 | in segment 0 padding is the answer if and only if no sequence covering the address has a row above 0 at or below it |
| `DwarfLookup.SplitTable` | debugger/dwarf_info.c:419-429 | rows and the zero rows after them are a table of sequences if and only if the last sequence is closed |
| `DwarfAddresses.LoadedTable` | debugger/dwarf_info.c:338-571 | the table of a parsed section whose programs end their sequences, with ascending addresses, is a table of valid sequences |
| `DwarfAddresses.LoadedAddresses` | debugger/dwarf_info.c:338-571 | the table of every parsed section has 32-bit addresses |
| `DwarfAddresses.SectionFound` | debugger/dwarf_info.c:955-1000 | in such a section a lookup finds a row if and only if a sequence covers the address, but for segment 0 and padding |
| `DwarfAddresses.SectionLookup` | debugger/dwarf_info.c:955-1000 | and, with disjoint sequences, the row whose range contains the address |
| `DwarfAddresses.LoadedNamed` | debugger/dwarf_info.c:312-332 | the name that goes with a row of a loaded table is that of its own unit's file; padding has none |
| `DwarfAddresses.Locate` | debugger/dwarf_info.c:338-1000 | from the section to the answer: the line of the best row, and the name its own unit gives the file register there |
| `WindowTree.UnlinkedTree` | native/pmwin.c:478-491 | unlinking and clearing a childless window keeps the tree |
| `WindowTree.InsertedTree` | native/pmwin.c:1240-1254 | inserting a new window at any place keeps the tree |
| `WindowTree.NoSelfLoop` | native/pmwin.c:1251-1254 | no tree has a window that is its own sibling |
| `WindowTree.UnderOne` | native/pmwin.c:450-492 | subtrees of different windows at one depth do not meet |
| `Windows.Anchor.GetWindow` | native/pmwin.c:137-150 | the live window with the handle, or none if there is none |
| `Windows.Anchor.Unlink` | native/pmwin.c:478-488 | the window goes from its parent's list, its neighbours joined |
| `Windows.Anchor.Remove` | native/pmwin.c:478-491 | a childless window is unlinked and its structure cleared, the rest still being a tree |
| `Windows.Anchor.DestroyWindow` | native/pmwin.c:450-492 | terminates, clears exactly the subtree, and keeps every other window's parent and children in order; for the desktop alone it takes the children and then follows a null pointer |
| `Windows.Anchor.WinDestroyWindow` | native/pmwin.c:1296-1312 | cuts exactly the subtree of the window with the handle; false and no change if there is none; a crash if and only if it is the desktop's handle |
| `Windows.Anchor.WinTerminate` | native/pmwin.c:516-518 | after the loop over all structures only the desktop is left, without children |
| `Windows.PartlyStep` | native/pmwin.c:463-467 | destroying one more child, the others untouched |
| `Windows.UnderKept` | native/pmwin.c:463-467 | destroying earlier siblings does not change a later one's subtree |
| `Windows.CutDone` | native/pmwin.c:478-491 | children gone and window unlinked make the subtree cut |
| `Windows.Anchor.FindBehind` | native/pmwin.c:1230-1238 | the window to insert behind: a child of the parent, the new window itself, or none |
| `Windows.Anchor.InsertTop` | native/pmwin.c:1240-1244 | insertion in front |
| `Windows.Anchor.InsertBottom` | native/pmwin.c:1245-1250 | insertion at the end |
| `Windows.Anchor.InsertAfter` | native/pmwin.c:1251-1254 | insertion after a given sibling |
| `Windows.PlaceMeans` | native/pmwin.c:1230-1254 | HWND_TOP puts the window first; HWND_BOTTOM, or no child's handle, puts it last; a child's handle puts it right after that child; the others keep their order |
| `Windows.Anchor.InsertWindow` | native/pmwin.c:1230-1254 | the tree is kept, with the window first, last, or right after the child asked for, and the others in order, except exactly when it is inserted behind itself among siblings |
| `Windows.Anchor.WinCreateWindow` | native/pmwin.c:1091-1265 | failure or cancellation changes nothing; success gives the first free structure its place in the parent's list: first, last, or right after the child asked for |
| `Windows.DestroyUndoesCreate` | native/pmwin.c:450-492 | destroying a window just created gives the tree back |
| `Ptrace.PokeByte` | debugger/td2ine_core.cpp:36-56 | patching a byte of a word and storing the word changes that byte and no other |
| `Ptrace.PeekByte` | debugger/td2ine_core.cpp:21-34 | the byte taken out of a word is the byte at the address |
| `Breakpoints.Debugger.ReadMemory` | debugger/td2ine_core.cpp:21-34 | exactly the bytes addressed |
| `Breakpoints.Debugger.WriteByte` | debugger/td2ine_core.cpp:42-51 | exactly one byte, or a failure |
| `Breakpoints.Debugger.WriteMemory` | debugger/td2ine_core.cpp:36-56 | exactly the bytes addressed, or a failure |
| `Breakpoints.Debugger.WaitForTrap` | debugger/td2ine_core.cpp:59-71 | a trap is reported exactly if one comes before an exit or a segmentation fault; other signals are swallowed; a clean memory stays clean |
| `Breakpoints.MapsBack` | debugger/td2ine_core.cpp:96-102 | CS:IP after a hit names the patched address if and only if it lies within 64K of the segment base |
| `Breakpoints.CounterMeans` | debugger/td2ine_core.cpp:96-102 | the counter set after a hit plus the segment base is the patched address, which CS:IP then names exactly if the counter has 16 bits |
| `Breakpoints.Debugger.DoSoftwareStep` | debugger/td2ine_main.cpp:242-272 | arms exactly the expected address, saving its byte |
| `Breakpoints.Debugger.HandleSoftwareStep` | debugger/td2ine_main.cpp:276-315 | restores the byte, disarms, and CS:IP resumes at the patched address |
| `Breakpoints.Debugger.DoStepOver` | debugger/td2ine_text.cpp:104-145 | arms the byte behind a call, counted from CS:IP, and steps elsewhere; at most one breakpoint |
| `Breakpoints.Debugger.HandleStepOver` | debugger/td2ine_text.cpp:147-175 | restores the byte, disarms, and CS:IP resumes at the patched address |
| `Breakpoints.Debugger.StopOver` | debugger/td2ine_text.cpp:512-531 | the continue command's own restoring of a step-over byte |
| `Breakpoints.Debugger.DoContinue` | debugger/td2ine_text.cpp:496-560 | still running means nothing armed and all bytes original; it stops running exactly if the first stop ends it, or the one after a signal other than a trap does |
| `Breakpoints.Debugger.DoStep` | debugger/td2ine_text.cpp:561-613 | after a single step, still running means nothing armed and all bytes original; with the processor's step it runs on exactly if a trap comes first, with a software step only after a trap at the expected address |
| `Breakpoints.Debugger.DoOver` | debugger/td2ine_text.cpp:614-632 | after a step over a call, still running means nothing armed and all bytes original, and that is exactly if a trap comes first |
| `Breakpoints.Debugger.TextMode` | debugger/td2ine_text.cpp:641-720 | at every prompt with the debuggee running nothing is armed and all bytes are original, unless a write has failed |
| `Jumps.JumpsFollowComparison` | debugger/td2ine_main.cpp:159-205 | after a comparison of 8, 16 or 32 bits each jump is expected exactly when the relation in its name holds, signed and unsigned |
| `Jumps.JumpsFollowDifference` | debugger/td2ine_main.cpp:159-205 | jo and js and their opposites follow overflow and sign of the difference, jp and jnp the number of ones in its low byte |
| `Jumps.JecxzAgrees` | debugger/td2ine_main.cpp:190 | jecxz is expected as the processor takes it, except exactly when only the high half of ecx is set |
| `Jumps.JcxzAgrees` | debugger/td2ine_main.cpp:190 | jcxz is expected exactly if the low half of ecx is 0 |

## Left out

The following are not modelled, or deliberately stated for less than everything the code could be given.

- ExePack2.Decompress: offsets are unbounded, so sources or buffers of 2^31 bytes and more, where the code's signed 32-bit offsets would overflow, are not described.
- Modules.Loader.LoadModule: initialisation code does nothing to the graph and reference counts do not wrap; record addresses are not reused after being freed, and the executable is always the first module loaded by path; library files do not change while modules are loaded; once an unset pointer has been freed nothing is said of the state.
- Ldt.Selectors.FindSelector: access rights and the code or data distinction of descriptors are not part of the table.
- StackTiles.InitStackSegments: the stack must lie where its slot numbers are valid, which the code asserts.
- HugeBlocks.Dos16.AllocSegment: mapping succeeds at the next address of the arena or fails for good at its end; no other code tiles memory inside the arena; a failed assertion ends the process.
- HugeBlocks.Dos16.FreeSegment: the kernel accepts clearing an LDT entry.
- LxFixups.FixupPage: targets through the entry table (kind 3) are not modelled; how imports resolve is a parameter.
- LxFixups.FieldMeans: fields of a page that overlap hold what the last store left, which only the fold says.
- NeFixups.FixupSegment: records come with their targets resolved; cells of one segment must not overlap and must lie inside it, which a linker ensures.
- NeFixups.WalkChain: overlapping cells, where a store would change a link not yet read, are excluded.
- Paths.Disks.SetCurrentDir: whether the directory exists, and whether there is memory for its name, are parameters.
- HugeBlocks.Dos16.FreeSeg: selectors that no allocation returned are not described.
- Leb128.ReadULEB: encodings of more than five bytes, where the code shifts by 32 and more, follow the model's own reading of such a shift.
- Leb128.ReadSLEB: the same.
- CommandBlock.BuildBlock: what a block of more than 64K overwrites is not described; the loader's own command-line switches are not modelled.
- CommandVectors.CalcArgv: what lies outside the allocation is not described; pointers have 4 bytes.
- DwarfSection.ParseDebugLine: the section is a list of well-formed units with fewer than 256 files in all, and nothing after them; its allocations succeed.
- DwarfLines.RowsAreDwarf: DW_LNE_define_file is not part of a well-formed program.
- DwarfLookup.LookupMeans: sequences stay in one segment, have non-decreasing addresses and do not overlap.
- DwarfAddresses.SectionLookup: the same, and every program ends its last sequence.
- Windows.Anchor.WinCreateWindow: growth of the window array is treated as a failure, and message handlers create or destroy no windows themselves; owner, position, text, data and the SDL parts are not modelled.
- Windows.Anchor.DestroyWindow: handlers of WM_DESTROY leave the windows alone.
- EventSem.Next: named and shared semaphores, null handles, and use of a semaphore after it is closed, are not modelled.
- Tls.Slots.Alloc: the fault handler that gives each thread its own copy of the slots is not modelled; a block near slot 31 is recorded with fewer slots than asked for, as in the code.
- Breakpoints.Debugger.TextMode: the poll for stops between commands is left out, since nothing is armed at a prompt; what calculateNextIP predicts, and what the disassembler says, are parameters; the program does not write the armed byte itself.
- parse_debug_aranges, dwarf_line_to_addr and the source cache of the debugger: a second, simpler two-pass reader and file access.
- lxAllocSegment's protection flags, trampolines, bridges between 16-bit and 32-bit code, signal handlers, thread-local page faults.
- File handles, directory search, process spawning, message queues, presentation spaces, the exit list, and the other API stubs.
- The full-screen debugger, its views, and the dump printers.
