# Verified models of the robot runtime's core algorithms

The robot software runs on a bundled LuaJIT and on small C modules of its own. This project models
the algorithms in them that are hardest to get right, and proves what they are for:

- **Register allocation of traces** (`lj_asm.c`): TraceIr, AllocState, RegAlloc, SideHead. A machine
  with registers and spill cells is defined, and the meaning of a trace as the sequence of its side
  effects. The allocator works backwards, as in the source: code grows at its front, and an
  invariant says at every emission point what the code emitted so far may rely on.
- **Memory allocation** (`lj_alloc.c`): the Alloc modules. AllocSizes to AllocFit are the bins: small
  rings, bitwise tries, bitmaps. AllocTiles to AllocSegments are the state as a value: chunks that
  tile segments, with tags, owners and directly mapped chunks, and one lemma for each kind of
  step. AllocMspace has the operations as methods of a class; AllocRun has whole runs.
- **Machine-code assembly** (`dasm_x86.h`): the Dasm modules, one for each concern of the three
  passes. The history of executed labels and references is the independent definition of what every
  branch is bound to.
- **Pattern matching** (`lib_string.c`): LuaPattern gives a pattern its items, and each item sequence
  the list of all its ways to match, best first; LuaMatch is the backtracking matcher; LuaWays has
  what holds of the ways; LuaLaws says for each special character of a pattern what the matcher
  answers in terms of the subject; LuaGsub has substitution and search.
- **Bytecode dumps** (`lj_bcwrite.c`, `lj_bcread.c`): Leb128, BcFormat, BcWrite, BcRead, BcDump,
  BcReload.
- **MessagePack** (`lua_msgpack.new.c`): the Msg modules: packer, recursive reader, the streaming
  unpacker with its explicit stack, and MsgLaws, which compares the encodings with the format tables
  of the specification.
- **UDP messages** (`lua_udp.cpp`): UdpPackets, UdpReceiver.
- **Sorting** (`lib_table.c`): TableSort.
- **Threads** (`lua_llthreads.c`): ThreadOwnership, the parent's operations with the child's steps
  interleaved between any two statements.

Wrappers and ByteStrings are shared. `dafny verify dfyconfig.toml` checks everything.

Where the code and what its documentation or comments promise differ, the model follows the code:

- `lua_udp_send_all` loses messages whose length is a multiple of 1462 or at least 255 * 1462
  (UdpPackets.FragmentsCarry says exactly which arrive).
- The MessagePack packer drops the pairs of a table that also has an array part
  (MsgRoundTrip.PlainNormal and OnlyPlainNormal say exactly which values come back unchanged).
- A backward reference to a local label is refused while a forward reference to that label waits,
  although an older definition exists (DasmLabels.BackwardAccepted, DasmState.BackwardRefused).
- Whether a malformed pattern raises an error depends on the subject; LuaWays.WellFormedAnswers
  gives a condition on the pattern alone under which the matcher never raises one.

## Model

| member | source | states |
|---|---|---|
| TraceIr.ValuesSolveSsa | Dependencies/luajit-2.0/src/lj_asm.c:2244-2254 | The reference meaning of a trace: its values are the solution of its SSA equations, each being its own operation applied to its operands' values. |
| TraceIr.RunFront | Dependencies/luajit-2.0/src/lj_asm.c:2244-2254 | An instruction emitted in front of existing code runs first, which is why emitting backwards works. |
| AllocState.EmitCorrect | Dependencies/luajit-2.0/src/lj_asm.c:2244-2254 | The proof rule of backward emission: an instruction that turns the new entry condition into the old one, adding the events between them, keeps the code correct for every machine state. |
| AllocState.LegalFront | Dependencies/luajit-2.0/src/lj_asm.c:2244-2254 | An instruction put in front of executable code leaves it executable: loads, stores and moves stay in one register class, and every other instruction stands for one of the trace, in order and no one twice (and, without dead-code elimination, each one), with operands and result in the registers of their classes. |
| AllocState.NewSlotOk | Dependencies/luajit-2.0/src/lj_asm.c:359-380 | A new spill slot overlaps no other, is even if 64 bits wide, and no cell is wasted: what the slots occupy and one spare cell are all the cells opened. |
| AllocState.OverflowIs | Dependencies/luajit-2.0/src/lj_asm.c:374-376 | If opening a slot exceeds 256 cells, then the values with slots and the one to be spilled really need more than 256 cells. |
| AllocState.UsedMore | Dependencies/luajit-2.0/src/lj_asm.c:359-380 | A value that gets a slot takes one cell, or two if it is 64 bits wide. |
| RegAlloc.RestoreCorrect | Dependencies/luajit-2.0/src/lj_asm.c:395-414 | A reload in front of correct code keeps it correct after the register is given up, because the slot holds the value. |
| RegAlloc.RematCorrect | Dependencies/luajit-2.0/src/lj_asm.c:316-357 | Giving up a constant's register keeps the code correct without a slot. |
| RegAlloc.SaveCorrect | Dependencies/luajit-2.0/src/lj_asm.c:416-425 | Storing a result at its definition makes its slot valid for all code behind it. |
| RegAlloc.ArgRegsApart | Dependencies/luajit-2.0/src/lj_asm_arm.h:339-423 | The registers of a call's arguments are all different, and scratch registers of the arguments' classes. |
| RegAlloc.ArgRegsAt | Dependencies/luajit-2.0/src/lj_asm_arm.h:339-423 | Each argument of a call is in the register that the calling convention names: as many from the first of its class as there are arguments of that class before it. |
| RegAlloc.CallCorrect | Dependencies/luajit-2.0/src/lj_asm_arm.h:339-423 | A call destroys only scratch registers, none of which the code behind it relies on, and needs exactly its arguments in their registers. |
| RegAlloc.ASMState.constructor | Dependencies/luajit-2.0/src/lj_asm.c:302-313 | At the start every register is free, no ref has a slot, and the empty code is correct. |
| RegAlloc.ASMState.Rematk | Dependencies/luajit-2.0/src/lj_asm.c:316-357 | Gives up exactly the constant's register, emits its load, and keeps the invariant. |
| RegAlloc.ASMState.Spill | Dependencies/luajit-2.0/src/lj_asm.c:359-380 | A ref keeps its slot, or gets a new one that overlaps no other; fails only if more than 256 cells are needed. |
| RegAlloc.ASMState.Restore | Dependencies/luajit-2.0/src/lj_asm.c:395-414 | Gives up the register of exactly one ref and keeps the code correct; fails only for want of cells. |
| RegAlloc.ASMState.Evict | Dependencies/luajit-2.0/src/lj_asm.c:428-448 | Gives up the allowed register of the lowest cost, and no other. |
| RegAlloc.ASMState.EvictSet | Dependencies/luajit-2.0/src/lj_asm.c:469-490 | All registers of the set are free afterwards; those outside it are as before. |
| RegAlloc.ASMState.AllocRef | Dependencies/luajit-2.0/src/lj_asm.c:570-610 | The ref gets an allowed register, the hinted one if that is free; only the allowed registers change. |
| RegAlloc.ASMState.Alloc2 | Dependencies/luajit-2.0/src/lj_asm_arm.h:53-75 | Both operands are in registers at the same time: allocating the second never evicts the first. |
| RegAlloc.ASMState.Dest | Dependencies/luajit-2.0/src/lj_asm.c:650-668 | The result's register is free from its definition upwards, and what the code behind demands of it is that it hold the result. |
| RegAlloc.ASMState.LeftOv | Dependencies/luajit-2.0/src/lj_asm.c:728-750 | Afterwards the register holds the operand, by living there or by a move; no other demand is lost. |
| RegAlloc.ASMState.GenCall | Dependencies/luajit-2.0/src/lj_asm_arm.h:339-423 | The call and the set-up of its register arguments keep the code correct. |
| RegAlloc.ASMState.AsmIr | Dependencies/luajit-2.0/src/lj_asm.c:1566-1694 | One instruction: the code before it is correct from its own definition on, and can be executed, with every register of the right class. |
| RegAlloc.ASMState.AssembleFrom | Dependencies/luajit-2.0/src/lj_asm.c:2244-2254 | The backward loop keeps the code correct and executable for every trace; afterwards no register holds a constant; it fails only if the trace needs more than 256 cells. |
| RegAlloc.ASMState.AssembleRoot | Dependencies/luajit-2.0/src/lj_asm.c:2196-2275 | Compiler correctness of root traces: from every machine state, running the code gives exactly the events of the trace, in order and with the same operands; every instruction is one that the target has, on registers of the classes of the values it stands for, and calls follow the calling convention; without dead-code elimination no instruction is left out; every register is free at the end; spill slots never overlap; the only failure is a trace that really needs more than 256 cells. |
| SideHead.OnlyCyclesLeft | Dependencies/luajit-2.0/src/lj_asm.c:1829-1848 | A temporary is used only to break a cycle: when no pending target is free, the registers waited for are exactly those taken. |
| SideHead.Rename | Dependencies/luajit-2.0/src/lj_asm.c:623-644 | Moving a ref to another register emits the inverse move and keeps what the code needs at its start. |
| SideHead.Coalesce | Dependencies/luajit-2.0/src/lj_asm.c:1833-1842 | The inner loop moves every ref that no cycle holds; what waits in cycles, and only registers still waited for, is left. |
| SideHead.BreakCycle | Dependencies/luajit-2.0/src/lj_asm.c:1848-1861 | Renames one target to a register that is neither waited for nor final; it fails exactly if the class has registers waiting and no such temporary. |
| SideHead.Shuffle | Dependencies/luajit-2.0/src/lj_asm.c:1829-1863 | The parallel move for any mix of chains and cycles: it terminates, all registers are free afterwards, and every demand is met by what the parent leaves in its registers; it fails if and only if some moves go round in a cycle in a class without a spare register. |
| SideHead.ReloadOne | Dependencies/luajit-2.0/src/lj_asm.c:1771-1799 | A spilled ref gets a register from which its slot is filled; it fails exactly if it needs one and no register of its class is left. |
| SideHead.FewNotCrowded | Dependencies/luajit-2.0/src/lj_asm.c:1716-1863 | A class all of whose registers are in use has at most twice as many registers as there are inherited refs. |
| SideHead.AsmHeadSide | Dependencies/luajit-2.0/src/lj_asm.c:1716-1863 | From every state the parent hands over the head and trace give the events of the trace; it fails only if every register of a class has, or had in the parent, an inherited ref. |
| SideHead.AssembleSide | Dependencies/luajit-2.0/src/lj_asm.c:2196-2275 | Compiler correctness of side traces, wherever the parent keeps the inherited refs; if the parent has them in registers of their classes, so are all registers the code uses; spill overflow only if more than 256 cells are needed; the coalescing error only if a register class is crowded with inherited refs, and never if there are fewer than half as many as the class has registers. |
| AllocSizes.SharedPrefix | Dependencies/luajit-2.0/src/lj_alloc.c:620-645 | All sizes of a trie bin have their leading bits in common. |
| AllocSizes.TreeIndexOrder | Dependencies/luajit-2.0/src/lj_alloc.c:620-632 | A higher bin holds only larger sizes. |
| AllocSizes.SignBit | Dependencies/luajit-2.0/src/lj_alloc.c:634-645 | The sign bit of the size shifted left, which the walks test, is the bit of the size that the trie branches on. |
| AllocTree.InsertHas | Dependencies/luajit-2.0/src/lj_alloc.c:734-771 | Inserting into the trie adds exactly one chunk, with its size. |
| AllocTree.InsertTrie | Dependencies/luajit-2.0/src/lj_alloc.c:734-771 | Inserting keeps the order by bit prefixes. |
| AllocTree.RemoveHas | Dependencies/luajit-2.0/src/lj_alloc.c:773-817 | Unlinking removes exactly one chunk; all others keep their sizes. |
| AllocTree.RemoveTrie | Dependencies/luajit-2.0/src/lj_alloc.c:773-817 | Unlinking, which may put any leaf in the place of a node, keeps the order by bit prefixes. |
| AllocRepair.PutRep | Dependencies/luajit-2.0/src/lj_alloc.c:749-770 | The few pointer assignments where the search stops turn memory that holds the trie into memory that holds the trie with the chunk. |
| AllocUnlink.RepairedRep | Dependencies/luajit-2.0/src/lj_alloc.c:773-817 | Likewise for the assignments that unlink a chunk and move a leaf up. |
| AllocFit.SearchStep | Dependencies/luajit-2.0/src/lj_alloc.c:1146-1162 | One step down the trie of the size asked for loses no better fit: it is below, or in the untaken right subtree that is remembered. |
| AllocBinOps.Bins.InsertSmall | Dependencies/luajit-2.0/src/lj_alloc.c:681-693 | Exactly the given chunk is added; rings, tries and both bitmaps stay exact. |
| AllocBinOps.Bins.UnlinkSmall | Dependencies/luajit-2.0/src/lj_alloc.c:696-706 | Exactly the given chunk is gone; everything stays exact. |
| AllocBinOps.Bins.UnlinkFirst | Dependencies/luajit-2.0/src/lj_alloc.c:709-717 | Takes a chunk of exactly the size of the bin. |
| AllocBinOps.Bins.InsertLarge | Dependencies/luajit-2.0/src/lj_alloc.c:734-771 | The pointer walk adds exactly the given chunk to the trie of its size; everything stays exact. |
| AllocBinOps.Bins.UnlinkLarge | Dependencies/luajit-2.0/src/lj_alloc.c:773-817 | The pointer surgery removes exactly the given chunk, whether it is in a ring, a leaf or an inner node. |
| AllocBinOps.Bins.FitLarge | Dependencies/luajit-2.0/src/lj_alloc.c:1135-1178 | Finds a chunk of the smallest size that fits in any trie, or says that there is none, with the remainder in a word. |
| AllocBinOps.Bins.FitSmall | Dependencies/luajit-2.0/src/lj_alloc.c:1199-1214 | Finds a chunk of the smallest size in any trie. |
| AllocBinOps.UnmarkedBins | Dependencies/luajit-2.0/src/lj_alloc.c:1267-1314 | If no bit of the bitmaps from the request's bin on is set, no chunk in any bin has room. |
| AllocTiles.Covered | Dependencies/luajit-2.0/src/lj_alloc.c:907-983 | Every address of a segment below its limit is in a chunk. |
| AllocTiles.RetileGeo | Dependencies/luajit-2.0/src/lj_alloc.c:1267-1469 | Replacing the chunks of a span by one or two keeps the segments tiled exactly. |
| AllocSpace.RetileOk | Dependencies/luajit-2.0/src/lj_alloc.c:1267-1469 | Retiling a span with its head and foot words rewritten keeps the whole state in order: tiles, tags, no two free neighbours, bins, owners. |
| AllocKeep.PayloadsApart | Dependencies/luajit-2.0/src/lj_alloc.c:1267-1469 | Two live payloads have no address in common. |
| AllocKeep.PayloadFits | Dependencies/luajit-2.0/src/lj_alloc.c:1267-1348 | A live payload is aligned to 8 bytes and has at least the size that was asked for. |
| AllocMspace.Mspace.constructor | Dependencies/luajit-2.0/src/lj_alloc.c:1231-1253 | A new allocator is in order and has no live chunk. |
| AllocMspace.Mspace.TmallocLarge | Dependencies/luajit-2.0/src/lj_alloc.c:1135-1196 | Takes a chunk of the smallest size that fits in any trie, if that is less than the designated victim or the victim does not fit; declines only if no chunk fits or the victim fits at least as well, and then changes nothing. |
| AllocMspace.Mspace.TmallocSmall | Dependencies/luajit-2.0/src/lj_alloc.c:1199-1225 | Takes the smallest chunk of the tries for a small request. |
| AllocMspace.Mspace.InitTop | Dependencies/luajit-2.0/src/lj_alloc.c:880-893 | The top chunk and the fake chunk behind it get their heads; nothing else is written. |
| AllocMspace.Mspace.PrependAlloc | Dependencies/luajit-2.0/src/lj_alloc.c:907-937 | New memory in front of a segment: the request is served at its start and the rest is merged with what is free behind it; everything stays in order. |
| AllocMspace.Mspace.AddSegment | Dependencies/luajit-2.0/src/lj_alloc.c:940-983 | A new segment becomes the top chunk; the old top chunk becomes a record, fenceposts and a free rest; everything stays in order. |
| AllocMspace.Mspace.DirectAlloc | Dependencies/luajit-2.0/src/lj_alloc.c:831-848 | A chunk mapped on its own, apart from everything else, if and only if its size does not wrap around and the system grants the pages; otherwise nothing changes. |
| AllocMspace.Mspace.DirectResize | Dependencies/luajit-2.0/src/lj_alloc.c:850-875 | The chunk keeps its contents where it is or where the system moves it, if and only if it fits there or the system agrees; otherwise nothing changes. |
| AllocMspace.Mspace.AllocSys | Dependencies/luajit-2.0/src/lj_alloc.c:988-1043 | Serves the request if and only if the system grants the memory: large chunks on their own first, then a segment in units that does not wrap around; otherwise nothing changes. |
| AllocMspace.Mspace.ReleaseUnused | Dependencies/luajit-2.0/src/lj_alloc.c:1050-1090 | The result is exactly the size of the segments that have gone, and no live chunk is touched; if the system takes everything back, no segment without a chunk in use is left. |
| AllocMspace.Mspace.Trim | Dependencies/luajit-2.0/src/lj_alloc.c:1092-1127 | Says truly whether memory was given back; no live chunk is touched; the top chunk keeps what was asked for, and, if the system agrees and no record is in its segment, less than a unit more. |
| AllocMspace.Mspace.FreeTop | Dependencies/luajit-2.0/src/lj_alloc.c:1379-1389 | Merging into the top chunk; if it is larger than the threshold then, memory goes back to the system. |
| AllocMspace.Mspace.Malloc | Dependencies/luajit-2.0/src/lj_alloc.c:1267-1348 | Gives an aligned address whose chunk was not live and is now, with the requested size; all other live chunks keep place and contents, and the whole state stays in order. Null changes nothing and only happens if no free chunk has room and the system, asked as alloc_sys asks it, declined or cannot be asked because the size wraps around. |
| AllocMspace.Mspace.Free | Dependencies/luajit-2.0/src/lj_alloc.c:1350-1419 | Exactly that chunk is not live any more, after merging with free neighbours, `dv` or `top`; all others keep place and contents, and the whole state stays in order. |
| AllocMspace.Mspace.Realloc | Dependencies/luajit-2.0/src/lj_alloc.c:1421-1469 | The chunk has the new size, and the first min(old, new) bytes of its contents, at the old or at a fresh address; all others keep place and contents. Null changes nothing and only happens if the chunk is too small where it is and cannot grow into the top chunk or be moved, no free chunk has room, and the system declined. |
| AllocMspace.Mspace.Alloc | Dependencies/luajit-2.0/src/lj_alloc.c:1471-1480 | The entry point frees, allocates or reallocates, as pointer and size say. |
| AllocRun.TiledOnce | Dependencies/luajit-2.0/src/lj_alloc.c:1267-1469 | Every address of a segment below its footer is in exactly one chunk. |
| AllocRun.FreeOnce | Dependencies/luajit-2.0/src/lj_alloc.c:1267-1469 | A free chunk is in exactly one place: it is the top chunk, the designated victim, or in the bin of its size; its head and foot agree; both its neighbours are in use. |
| AllocRun.BlocksApart | Dependencies/luajit-2.0/src/lj_alloc.c:1267-1469 | The blocks of the program are aligned and no two have a byte in common. |
| AllocRun.ServedMirror | Dependencies/luajit-2.0/src/lj_alloc.c:1471-1480 | A call of the allocator is a step of an ideal store of separate blocks. |
| AllocRun.Perform | Dependencies/luajit-2.0/src/lj_alloc.c:1471-1480 | Any operation of the program, request or write, is a step of the ideal store and keeps the allocator in order. |
| AllocRun.Run | Dependencies/luajit-2.0/src/lj_alloc.c:1231-1480 | After any run of requests and writes the allocator is in order, every pointer of the program has a live chunk with exactly the size and contents of its block in the ideal store, no pointer occurs twice and no live chunk is lost. |
| DasmLabels.BoundKeeps | Dependencies/luajit-2.0/dynasm/dasm_x86.h:228-243 | A reference to a defined label points to its latest definition at once; all chains stay exact. |
| DasmLabels.LinkedKeeps | Dependencies/luajit-2.0/dynasm/dasm_x86.h:224-238 | A reference that has to wait becomes the head of its label's chain; the chains are exactly the unbound references, label by label. |
| DasmLabels.DefKeeps | Dependencies/luajit-2.0/dynasm/dasm_x86.h:244-250 | Defining a label leaves its position in exactly the slots that waited for it. |
| DasmLabels.StepKeeps | Dependencies/luajit-2.0/dynasm/dasm_x86.h:482-496 | Forgetting the local labels at a check step keeps all references bound as they were. |
| DasmLabels.BackwardAccepted | Dependencies/luajit-2.0/dynasm/dasm_x86.h:223-225 | A backward local reference is accepted if and only if the label is defined and no forward reference to it waits, and then it gets the latest definition. |
| DasmState.BackwardRefused | Dependencies/luajit-2.0/dynasm/dasm_x86.h:223-225 | The smallest program whose backward reference is refused although the label is defined. |
| DasmChains.Collapse | Dependencies/luajit-2.0/dynasm/dasm_x86.h:247-249 | The loop ends, because a chain has no cycle, and fills exactly the chain's slots. |
| DasmGlobals.MarkGlobals | Dependencies/luajit-2.0/dynasm/dasm_x86.h:289-296 | The references to undefined globals, and no others, are replaced by markers. |
| DasmGlobals.AllResolved | Dependencies/luajit-2.0/dynasm/dasm_x86.h:289-296 | After that every reference is resolved as the history of the program says. |
| DasmState.PutExecutes | Dependencies/luajit-2.0/dynasm/dasm_x86.h:187-264 | A put without a failing check executes exactly the actions from the first to the one that ends it, and every immediate and space gets the argument whose turn it is. |
| DasmState.LocalForms | Dependencies/luajit-2.0/dynasm/dasm_x86.h:220-244 | Local labels are defined and referred to backward by their number and forward by their number above 246; other numbers are globals. |
| DasmState.DasmState.Put | Dependencies/luajit-2.0/dynasm/dasm_x86.h:167-269 | Pass 1 executes the actions of the list with their arguments; the status names the first check that fails; if none does, buffers, chains, estimates and history belong to the actions executed, and the active section is the one switched to. |
| DasmState.DasmState.CheckStep | Dependencies/luajit-2.0/dynasm/dasm_x86.h:482-496 | Reports the first local label that is referred to but not defined; otherwise forgets the local labels. |
| DasmLink.DistancesShrink | Dependencies/luajit-2.0/dynasm/dasm_x86.h:298-348 | Final addresses only go up, and no distance is larger than its estimate. |
| DasmLink.ShrunkFits | Dependencies/luajit-2.0/dynasm/dasm_x86.h:312-331 | Every branch that is shrunk has a final displacement within a signed byte. |
| DasmShrink.Shrinkage | Dependencies/luajit-2.0/dynasm/dasm_x86.h:312-327 | The test with the running correction, over sections and in both directions, is the test of the final distance. |
| DasmShrink.LinkSections | Dependencies/luajit-2.0/dynasm/dasm_x86.h:298-351 | Pass 2 leaves the final layout in the buffers, section behind section, and its result is the end of the last item. |
| DasmState.DasmState.Link | Dependencies/luajit-2.0/dynasm/dasm_x86.h:273-353 | Succeeds if and only if nothing failed before and no PC label waits for its definition, which it names otherwise; then the state is laid out for any load address. |
| DasmEncode.BranchLands | Dependencies/luajit-2.0/dynasm/dasm_x86.h:422-432 | The bytes of a branch decode to the branch that was put down, in the length pass 2 chose, with the displacement to its target. |
| DasmEncode.AlignPads | Dependencies/luajit-2.0/dynasm/dasm_x86.h:448-451 | An alignment ends on its boundary after at most mask bytes, all of them NOPs. |
| DasmEncode.ItemLaid | Dependencies/luajit-2.0/dynasm/dasm_x86.h:387-400 | In the code a byte is itself, an immediate of one, two or four bytes stands for its argument, lowest byte first, and a space is as long as its argument and filled. |
| DasmEncode.GlobalsLast | Dependencies/luajit-2.0/dynasm/dasm_x86.h:440-445 | Each global label has the address of its last definition, or what it had before if it has none. |
| DasmState.AllLand | Dependencies/luajit-2.0/dynasm/dasm_x86.h:422-432 | Every branch of a linked program lands on the final address of the label that the history binds it to, or on the outside global. |
| DasmState.DasmState.Encode | Dependencies/luajit-2.0/dynasm/dasm_x86.h:367-466 | Pass 3 writes exactly the size that was announced (never a phase error); every branch lands exactly on its label's final address; every alignment ends on its boundary; every immediate stands for its argument; each global has the address of its last definition. |
| LuaMatch.MatchState.StartCapture | Dependencies/luajit-2.0/src/lib_string.c:301-313 | Answers with the first way to match with a new capture, and leaves the captures as they were if there is none. |
| LuaMatch.MatchState.EndCapture | Dependencies/luajit-2.0/src/lib_string.c:315-324 | Likewise with the innermost open capture closed; an error if none is open. |
| LuaMatch.MatchState.MatchCapture | Dependencies/luajit-2.0/src/lib_string.c:326-336 | A back reference matches exactly the text of its capture. |
| LuaMatch.MatchBracketClass | Dependencies/luajit-2.0/src/lib_string.c:216-237 | The scan of a set decides membership as its elements, ranges and complement say. |
| LuaMatch.MatchBalance | Dependencies/luajit-2.0/src/lib_string.c:251-270 | Finds the shortest stretch in which the two characters balance, or says that there is none. |
| LuaMatch.MatchState.MaxExpand | Dependencies/luajit-2.0/src/lib_string.c:272-285 | Counting up and backing off answers with the first way of a greedy repetition. |
| LuaMatch.MatchState.MinExpand | Dependencies/luajit-2.0/src/lib_string.c:287-299 | Answers with the first way of a lazy repetition. |
| LuaMatch.GreedyDescends | Dependencies/luajit-2.0/src/lib_string.c:272-285 | The ways of a greedy repetition are those with the most characters first, down to none. |
| LuaWays.LazyAscends | Dependencies/luajit-2.0/src/lib_string.c:287-299 | The ways of a lazy repetition are those with the fewest characters first. |
| LuaMatch.MatchState.Match | Dependencies/luajit-2.0/src/lib_string.c:338-421 | The answer is the first in the list of all ways to match, with its end and captures; no match if and only if the list is empty, and then captures and depth are as before; an error if and only if the first way is that error. LuaLaws says what the ways are. |
| LuaWays.WaysInside | Dependencies/luajit-2.0/src/lib_string.c:338-421 | Every way ends inside the subject, and so does every finished capture. |
| LuaWays.WellFormedAnswers | Dependencies/luajit-2.0/src/lib_string.c:338-421 | For every pattern that passes a check without a subject, and is not nested too deep, there is never an error: the matcher gives the best way, or none exactly if there is none. |
| LuaLaws.CharLaw | Dependencies/luajit-2.0/src/lib_string.c:239-247 | A plain character of a pattern stands for itself, and `.` for every character. |
| LuaLaws.EscapeLaw | Dependencies/luajit-2.0/src/lib_string.c:202-214 | `%` and a class letter stand for the characters of the class, `%` and the upper case letter for all others; before other characters `%` makes them stand for themselves. |
| LuaLaws.SetLaw | Dependencies/luajit-2.0/src/lib_string.c:216-237 | A set of characters has exactly those. |
| LuaLaws.RangeLaw | Dependencies/luajit-2.0/src/lib_string.c:216-237 | A range in a set has the characters from its first to its last. |
| LuaLaws.SetEscapeLaw | Dependencies/luajit-2.0/src/lib_string.c:216-237 | An escape in a set is the same class as outside. |
| LuaLaws.ComplementLaw | Dependencies/luajit-2.0/src/lib_string.c:216-237 | A set that starts with `^` is the complement of the same set without it. |
| LuaLaws.SetEndLaw | Dependencies/luajit-2.0/src/lib_string.c:175-192 | A set ends with its first `]` that is neither its first character nor escaped. |
| LuaLaws.StarLaw | Dependencies/luajit-2.0/src/lib_string.c:402-404 | A class with `*` is tried with as many characters as there are, then fewer, down to none. |
| LuaLaws.PlusLaw | Dependencies/luajit-2.0/src/lib_string.c:405-407 | With `+` likewise, down to one. |
| LuaLaws.MinusLaw | Dependencies/luajit-2.0/src/lib_string.c:408-410 | With `-` it is tried with no character first, then more. |
| LuaLaws.OptionLaw | Dependencies/luajit-2.0/src/lib_string.c:393-401 | With `?` it is tried with one character, if there is one, then with none. |
| LuaLaws.RepeatAnswers | Dependencies/luajit-2.0/src/lib_string.c:338-421 | So the matcher answers for one class repeated, where exactly n characters of the class are at s: `*` ends at s + n; `+` too, or there is no match if n is 0; `-` ends at s; `?` ends at s + 1 if n is not 0, and at s otherwise. |
| LuaLaws.TextLaw | Dependencies/luajit-2.0/src/lib_string.c:338-421 | A pattern of plain characters matches exactly its own text. |
| LuaLaws.FrontierLaw | Dependencies/luajit-2.0/src/lib_string.c:360-371 | A frontier matches where the character before is not in the set and the one here is, with zero characters around the subject. |
| LuaLaws.CaptureLaw | Dependencies/luajit-2.0/src/lib_string.c:301-324 | A class repeated in parentheses captures the stretch it matched. |
| LuaLaws.ReferenceLaw | Dependencies/luajit-2.0/src/lib_string.c:326-336 | `%1` to `%9` match the text of the capture once more. |
| LuaLaws.BalanceLaw | Dependencies/luajit-2.0/src/lib_string.c:251-270 | `%b` ends at the first place where there are as many closing characters as opening ones. |
| LuaLaws.EndLaw | Dependencies/luajit-2.0/src/lib_string.c:384-388 | `$` at the end of a pattern matches only at the end of the subject. |
| LuaGsub.SegmentsTile | Dependencies/luajit-2.0/src/lib_string.c:600-639 | What gsub keeps and replaces cuts the subject without gap or overlap, with at most `max_s` replacements, each of the best match at its place. |
| LuaGsub.SegmentsSought | Dependencies/luajit-2.0/src/lib_string.c:611-635 | gsub misses no match: what it keeps has none, unless no more may be replaced or an empty match was replaced right there. |
| LuaGsub.AnchorLaw | Dependencies/luajit-2.0/src/lib_string.c:611-635 | An anchored pattern is replaced at the start only. |
| LuaGsub.ExpandLaw | Dependencies/luajit-2.0/src/lib_string.c:547-566 | In a template `%0` gives the whole match, `%1` to `%9` the text or the position of that capture (an error if there is none), and `%` before another character that character. |
| LuaGsub.DecimalIs | Dependencies/luajit-2.0/src/lib_string.c:423-438 | A position comes out as its decimal numeral. |
| LuaGsub.GsubIdentity | Dependencies/luajit-2.0/src/lib_string.c:568-639 | Replacing each match by itself gives back the subject. |
| LuaGsub.Gsub | Dependencies/luajit-2.0/src/lib_string.c:600-639 | The loop terminates with the rendering of those segments and their number; an error is that of the first failing step. |
| LuaGsub.Find | Dependencies/luajit-2.0/src/lib_string.c:480-500 | The search finds the first position with a match, and the best match there; none if and only if no position has one. |
| Leb128.WriteUleb | Dependencies/luajit-2.0/src/lj_bcwrite.c:169-199 | The loop writes the ULEB128 digits of the number. |
| Leb128.UlebIs | Dependencies/luajit-2.0/src/lj_buf.c:220-231 | The digits stand for the number, seven bits each with the lowest first, and the high bit of a byte says whether more follow. |
| Leb128.ReadUleb | Dependencies/luajit-2.0/src/lj_buf.c:220-231 | Reads back any 32-bit number from its digits and takes exactly those. |
| Leb128.PatchedUleb | Dependencies/luajit-2.0/src/lj_bcwrite.c:185-189 | Patching the last byte makes the 32-bit writer write the 33-bit number. |
| Leb128.WriteUleb33 | Dependencies/luajit-2.0/src/lj_bcwrite.c:169-199 | The patched writer writes the digits of the 33-bit number for every 32-bit value and tag. |
| Leb128.ReadUleb33 | Dependencies/luajit-2.0/src/lj_bcread.c:135-149 | Its reader gives back the value, and the tag is the lowest bit of the first byte. |
| Leb128.PrefixLength | Dependencies/luajit-2.0/src/lj_bcwrite.c:290-296 | The length computed from the highest bit is the number of ULEB128 digits for every 32-bit number but 0, so the prefix ends where five bytes were left. |
| BcFormat.UnpatchRestores | Dependencies/luajit-2.0/src/lj_bcwrite.c:202-231 | Unpatching gives back the original instruction, however the virtual machine patched the loop. |
| BcFormat.TypeLaw | Dependencies/luajit-2.0/src/lj_bcdump.h:50-59 | Constants are written with the types of the format. |
| BcWrite.WriteBytecode | Dependencies/luajit-2.0/src/lj_bcwrite.c:202-231 | Copying and changing back in the copy writes the unpatched instructions. |
| BcWrite.WriteProto | Dependencies/luajit-2.0/src/lj_bcwrite.c:234-298 | Children are written before their parent, the last first. |
| BcRead.ReadProto | Dependencies/luajit-2.0/src/lj_bcread.c:309-385 | Reads what was written and takes exactly its bytes; children come from the stack. |
| BcDump.TreeLoads | Dependencies/luajit-2.0/src/lj_bcread.c:421-456 | For trees of any shape, reading the prototypes in the order they were written leaves exactly one more on the stack, the tree, every child in its own place. |
| BcDump.Input.Fill | Dependencies/luajit-2.0/src/lj_bcread.c:48-88 | Refilling loses no byte, whatever pieces come, and says truly whether there are enough. |
| BcDump.HeaderLaw | Dependencies/luajit-2.0/src/lj_bcdump.h:14-47 | A dump starts with the escape byte, "LJ", version 2, and the flags; a stripped one has no name. |
| BcDump.WriteDump | Dependencies/luajit-2.0/src/lj_bcwrite.c:301-358 | Writes the dump of every valid tree. |
| BcDump.Load | Dependencies/luajit-2.0/src/lj_bcread.c:388-456 | From input in any pieces, a dump gives back its tree, equal up to the kept flags and unpatched loop instructions. |
| BcReload.TableRestored | Dependencies/luajit-2.0/src/lj_bcread.c:200-221 | The template table that comes back has the same array slots and, if keys are distinct, the same contents. |
| BcReload.NormalRestores | Dependencies/luajit-2.0/src/lj_bcwrite.c:202-298 | What a dump gives back is the compiled function, with its flags for children, variable arguments and FFI, whatever loop instructions of it or of its children were patched since. |
| BcReload.Reload | Dependencies/luajit-2.0/src/lj_bcread.c:388-456 | Dumping and loading with the dump cut into any pieces always succeeds and gives the function as it was compiled: the three flags, instructions, constants, tables, children. |
| MsgPacker.Pack | Modules/msgpack/lua_msgpack.new.c:337-362 | Succeeds if and only if the value can be packed and its encoding fits the buffer of 1 MiB, and then gives the encoding; otherwise the error is the first, in the order of the messages, of all faults in the value and of the lack of room for what is before the first. |
| MsgPacker.MessageIs | Modules/msgpack/lua_msgpack.new.c:343-361 | The message is about the error that comes first in the order in which they are looked for. |
| MsgPacker.WriteBuf.PackAny | Modules/msgpack/lua_msgpack.new.c:289-335 | Appends the encoding, or records the error that prevents it. |
| MsgLaws.IntLaw | Modules/msgpack/lua_msgpack.new.c:101-179 | Every integer is written in one of the formats that the specification has for it. |
| MsgLaws.IntShortest | Modules/msgpack/lua_msgpack.new.c:101-179 | No format for the integer is shorter. |
| MsgLaws.LengthLaw | Modules/msgpack/lua_msgpack.new.c:181-262 | Strings, arrays and maps have one of the formats for their length. |
| MsgLaws.LengthShortest | Modules/msgpack/lua_msgpack.new.c:181-262 | None is shorter. |
| MsgLaws.HeadLaw | Modules/msgpack/lua_msgpack.new.c:88-99 | Nil, booleans and doubles have their formats, a double with its highest byte first. |
| MsgLaws.ReadInt | Modules/msgpack/lua_msgpack.new.c:392-530 | An integer in any of its formats, not only the shortest, is read. |
| MsgLaws.ReadStr | Modules/msgpack/lua_msgpack.new.c:392-560 | So is a string with its length in any format. |
| MsgRoundTrip.RoundTrip | Modules/msgpack/lua_msgpack.new.c:370-592 | Decoding what was encoded gives the value and takes exactly its bytes, whatever follows. |
| MsgRoundTrip.PlainNormal | Modules/msgpack/lua_msgpack.new.c:223-286 | A value without pairs beside an array part comes back unchanged. |
| MsgRoundTrip.OnlyPlainNormal | Modules/msgpack/lua_msgpack.new.c:223-286 | And only such a value does. |
| MsgReader.Unpack | Modules/msgpack/lua_msgpack.new.c:595-640 | The recursive reader, with its position and error flag, decodes as the definition says, also malformed input. |
| MsgReader.PackUnpack | Modules/msgpack/lua_msgpack.new.c:77-640 | Packing and unpacking, with any bytes behind, gives the value and the length of its encoding. |
| MsgStream.RunValue | Modules/msgpack/lua_msgpack.new.c:751-963 | The stack machine completes a value exactly with the last byte of its encoding if the stack has room for its depth, and refuses it if not. |
| MsgFeed.Unpacker.Feed | Modules/msgpack/lua_msgpack.new.c:866-963 | The feeding loop, which skips over data in blocks, is the stack machine run over the bytes; bytes that do not fit are refused and change nothing. |
| MsgFeed.Unpacker.Pull | Modules/msgpack/lua_msgpack.new.c:981-993 | Decodes the next value and shifts exactly its bytes out, if one is complete. |
| MsgFeed.Counted | Modules/msgpack/lua_msgpack.new.c:751-850 | The result count is the number of complete values, and the stack is empty exactly between values. |
| MsgFeed.PullServes | Modules/msgpack/lua_msgpack.new.c:965-993 | A pull gives the next value and leaves the unpacker as if it had never been fed it. |
| MsgFeed.RunServes | Modules/msgpack/lua_msgpack.new.c:751-993 | For any values and any run of feeds and pulls, however the bytes are cut: no call fails, the pulls give the values in order, and the count is the number of values complete and not pulled. |
| MsgFeed.TooDeep | Modules/msgpack/lua_msgpack.new.c:817-830 | A value is accepted if and only if its depth is within the stack. |
| UdpPackets.ChangeDetected | Modules/udp/lua_udp.cpp:73-79 | A header with one byte changed has another checksum. |
| UdpPackets.ChecksumBits | Modules/udp/lua_udp.cpp:73-79 | A bit of the checksum is set if and only if an odd number of the header bytes have it. |
| UdpPackets.PacketLayout | Modules/udp/lua_udp.cpp:46-54 | The header has uuid, order, number, size with its low byte first, and checksum, and the body is behind it. |
| UdpPackets.SendAll | Modules/udp/lua_udp.cpp:434-482 | Builds the fragments, with the count truncated to a byte as in the code. |
| UdpPackets.FragmentsCarry | Modules/udp/lua_udp.cpp:442-464 | The fragments carry the message if and only if its length is less than 255 * 1462 and not a multiple of 1462. |
| UdpReceiver.Receiver.PacketUpdate | Modules/udp/lua_udp.cpp:212-275 | One packet changes buffers and queue as its kind says: bad, single, or part of a message. |
| UdpReceiver.Receiver.CommUpdate | Modules/udp/lua_udp.cpp:277-318 | A batch of datagrams is handled in order, and the queue keeps the newest 12 messages. |
| UdpReceiver.Delivered | Modules/udp/lua_udp.cpp:212-275 | Parts in any order, repeated, and mixed with other packets: exactly one message is queued, when the last missing part arrives; it is the original if and only if that is deliverable; nothing stays in the buffer. |
| UdpReceiver.SingleDelivered | Modules/udp/lua_udp.cpp:244-248 | A message of one packet is queued at once. |
| TableSort.Sorter.Median | Dependencies/luajit-2.0/src/lib_table.c:179-206 | First, middle and last element are put in order; up to three elements are then sorted. |
| TableSort.Sorter.Partition | Dependencies/luajit-2.0/src/lib_table.c:207-226 | Under a strict weak order the part is split at a pivot and there is no error; whatever the comparison answers, only the part is touched. |
| TableSort.Sorter.AuxSort | Dependencies/luajit-2.0/src/lib_table.c:176-237 | Recursing on the smaller half is no deeper than the logarithm of the size; the part ends up sorted under a strict weak order. |
| TableSort.Sorter.Sort | Dependencies/luajit-2.0/src/lib_table.c:239-248 | A sorted permutation without an error for every strict weak order; for any comparison function at all, the array is a permutation of the input at every comparison, only elements inside are compared, and the depth is at most the logarithm. |
| ThreadOwnership.Thread.ChildStep | Modules/llthreads/lua_llthreads.c:211-249 | The child touches its state only while it is allocated, and frees it exactly if the table says so. |
| ThreadOwnership.Thread.LuaStart | Modules/llthreads/lua_llthreads.c:540-561 | Starts a thread once, with the child free to run and end between any two statements. |
| ThreadOwnership.Thread.LuaJoin | Modules/llthreads/lua_llthreads.c:563-607 | Results are only read from a state the parent owns; it fails exactly if the thread was not started, cannot be joined, was joined before, or is not waited for. |
| ThreadOwnership.Thread.LuaAlive | Modules/llthreads/lua_llthreads.c:624-661 | Fails if and only if the thread was not started, cannot be joined or was joined before; otherwise a running thread is alive, and one that has ended is not, unless the system still reports it. |
| ThreadOwnership.Thread.Gc | Modules/llthreads/lua_llthreads.c:289-331 | Collection settles the thread and frees the state if it is the parent's. |
| ThreadOwnership.Life | Modules/llthreads/lua_llthreads.c:211-607 | In all four start modes, for any operations and every interleaving with the child, the child state is freed exactly once, by the side the table names, and a created thread is joined or detached exactly once. |

## Left out

- RegAlloc.ASMState.AssembleRoot: traces have at most two operands per instruction, except calls, whose arguments all fit in registers; snapshots, weak refs, the modified-register set, PHIs and loops, sinking, constants without a ref (ra_allock), stack arguments, RENAME instructions and the stack check are not modelled.
- RegAlloc.FreePick: one choice among the free registers stands for that of ra_allocref, which for refs outside a loop prefers unmodified registers from the bottom; every choice is correct. The cost of a register is its ref alone, without the PHI weight.
- SideHead.AsmHeadSide: the base register and the stack check at the head are not modelled.
- Register classes are two sets; register pairs and target-specific emission are abstract.
- AllocMspace.Mspace.Malloc: words of 32 bits, requests below 2^32. The answers of the system are a list given beforehand, of which an impossible one is a refusal; all results are for every such list.
- AllocMspace.Mspace: the bytes of chunks are ghost state; writing a head, foot or link changes the bytes under it to any value. mmap gives any pages apart from all mapped ones and not at the end of memory. Pages are aligned, so a directly mapped chunk starts at its region.
- AllocBinOps.Bins: bitmaps are sequences of bits and finding the lowest bit is a search; the bin of a chunk is computed from its size instead of being stored with it.
- Creating an allocator when the system declines, destroying it, and the Windows and probing variants of mmap.
- AllocRun.Run: an ideal store may decline a request; when the allocator does so is stated at Malloc and Realloc.
- DasmState.DasmState.Link: requires that no local label is waiting, which a check step ensures; without one the code takes the links of a waiting local label for positions.
- DasmState.DasmState.Put: after a failed put nothing is put any more; the buffers have room for positions of 24 bits, and growing them is not modelled.
- Actions for displacements and ModRM bytes, virtual registers, marks, set labels, externals and absolute references, immediates of labels, and immediates of variable size; an escaped byte is a byte, and a branch is one action with its opcode. dasm_getpclabel.
- LuaMatch.MatchState.Match: which characters a class has is a parameter; characters are compared as they are.
- LuaGsub.Gsub: replacement functions are functions of the captures, without side effects; results that are neither strings nor false are not modelled, nor string.format, gmatch and plain find.
- BcDump.Load: for dumps that were written for the same kind of runtime, not for others or malformed ones; the chunk name is read but not returned; no cdata constants, byte swapping or FFI library; debug information is one block; buffers are byte strings without a capacity.
- BcReload.Reload: a chunk that is source text is not loaded; a writer function that fails.
- MsgPacker.Pack: numbers are integers or eight opaque bytes; tables have fewer than 2^31 entries and are values; the Lua stack is not modelled.
- MsgReader.Unpack: for sizes in larger headers than needed the definition says what the code does, but the round trip does not use it.
- UdpReceiver.Receiver.CommUpdate: datagrams are at least as long as the header and as their size field says, since what is read behind their end is undefined; sockets, and a uuid used again while an older message is incomplete.
- TableSort.Sorter.Sort: comparison functions that change the table or raise errors.
- ThreadOwnership.Life: creating a thread and joining it succeed but for the timeout; values passed between Lua states, and Windows handles.
- Device, messaging and scripting code of the repository, which is plumbing around libraries.
